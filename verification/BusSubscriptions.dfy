/** What a subscriber gets, in terms of what it asked for: the name, buffer size and event types it gave to
    Subscribe, whatever other goroutines do. */
module BusSubscriptions {
  import opened Base
  import opened BusProtocol

  /** Whether a Subscribe call with these event types asks for events of this kind. There are twelve kinds. */
  predicate AsksFor(types: seq<nat>, kind: nat) {
    types == [] || (kind < 12 && kind in types)
  }

  /** The terms of a subscription, as they were given to Subscribe. */
  ghost predicate HasTerms(x: Subscription, name: string, buf: int, types: seq<nat>) {
    && x.name == name && x.cap == (if buf < 0 then 0 else buf)
    && forall kind: nat :: Wants(x, kind) <==> AsksFor(types, kind)
  }

  /** A subscription nothing has happened to. */
  predicate Blank(x: Subscription) {
    x.received == [] && x.buffer == [] && x.due == [] && x.offered == [] && x.dropped == 0
  }

  lemma NewHasTerms(name: string, buf: int, types: seq<nat>)
    ensures HasTerms(NewSubscription(name, buf, types), name, buf, types)
    ensures HasTerms(NewSubscription(name, buf, types).(closed := true), name, buf, types)
    ensures Blank(NewSubscription(name, buf, types)) && !NewSubscription(name, buf, types).closed
  {
  }

  /** The registered subscriptions but for the one of this name. */
  function OthersThan(s: State, name: string): seq<nat> {
    if name in s.subs then Without(s.order, s.subs[name]) else s.order
  }

  /** The subscriber of this name leaves map and list, and its channel is closed; no other is touched. */
  lemma DropTakesOut(s: State, name: string)
    requires Registered(s)
    ensures var t := Dropped(s, name);
            && t == s.(subs := s.subs - {name}, order := t.order, table := t.table) && |t.table| == |s.table|
            && t.order == OthersThan(s, name)
            && forall i :: 0 <= i < |s.table| ==>
                 t.table[i] == s.table[i].(closed := s.table[i].closed || (name in s.subs && i == s.subs[name]))
  {
    if name in s.subs {
      assert s.subs[name] in s.order;
    } else {
      assert s.subs - {name} == s.subs;
    }
  }

  /** Subscribe registers a new subscription last, on the terms given, with an empty channel and no history. It
      takes the place of the one with the same name, whose channel is closed. On a closed bus it registers
      nothing, and the channel is closed from the start. */
  lemma SubscribeRegisters(s: State, name: string, buf: int, types: seq<nat>)
    requires Registered(s) && NoneInFlight(s)
    ensures var t, id := Step(s, Subscribe(name, buf, types)), |s.table|;
            && |t.table| == id + 1 && HasTerms(t.table[id], name, buf, types) && Blank(t.table[id])
            && t.table[id].closed == s.closed && t.publishers == s.publishers && t.closed == s.closed
            && (if s.closed then t.subs == s.subs && t.order == s.order && t.table[..id] == s.table
                else
                  && t.subs == s.subs[name := id]
                  && t.order == OthersThan(s, name) + [id]
                  && forall i :: 0 <= i < id ==>
                       t.table[i] == s.table[i].(closed := s.table[i].closed || (name in s.subs && i == s.subs[name])))
  {
    NewHasTerms(name, buf, types);
    DropTakesOut(s, name);
    hide NewSubscription, Dropped, HasTerms, Blank, Registered, OthersThan;
    if !s.closed {
      assert (s.subs - {name})[name := |s.table|] == s.subs[name := |s.table|];
      assert Step(s, Subscribe(name, buf, types)).order == Dropped(s, name).order + [|s.table|];
    }
  }

  /** Unsubscribe takes the subscription of that name, if any, out of map and list and closes its channel. */
  lemma UnsubscribeTakesOut(s: State, name: string)
    requires Registered(s) && NoneInFlight(s)
    ensures var t := Step(s, Unsubscribe(name));
            && t == s.(subs := s.subs - {name}, order := OthersThan(s, name), table := t.table) && |t.table| == |s.table|
            && forall i :: 0 <= i < |s.table| ==>
                 t.table[i] == s.table[i].(closed := s.table[i].closed || (name in s.subs && i == s.subs[name]))
  {
    DropTakesOut(s, name);
  }

  /** Close closes every channel and empties map and list, for good; what is buffered can still be received. */
  lemma CloseEndsAll(s: State)
    requires Inv(s) && NoneInFlight(s)
    ensures var t := Step(s, Close);
            && t == s.(closed := true, subs := map[], order := [], table := t.table) && |t.table| == |s.table|
            && forall i :: 0 <= i < |s.table| ==> t.table[i] == s.table[i].(closed := true)
  {
    if s.closed {
      assert forall name :: name !in s.subs;
      assert Step(s, Close).table == s.table;
    } else {
      CloseAllOpen(s.(closed := true), s.order);
    }
  }

  /** A receive takes the oldest buffered event, from its own channel only, open or closed. */
  lemma ReceiveTakesOldest(s: State, id: nat)
    requires Enabled(s, Receive(id))
    ensures var t, x := Step(s, Receive(id)), s.table[id];
            && t == s.(table := t.table) && |t.table| == |s.table|
            && [x.buffer[0]] + t.table[id].buffer == x.buffer
            && t.table[id] == x.(received := x.received + [x.buffer[0]], buffer := t.table[id].buffer)
            && forall i :: 0 <= i < |s.table| && i != id ==> t.table[i] == s.table[i]
  {
  }

  // ---------- The terms last ----------

  lemma {:induction false} ClosingKeepsTable(s: State, ids: seq<nat>)
    ensures |AllClosed(s, ids).table| == |s.table|
    ensures forall id :: 0 <= id < |s.table| ==>
              AllClosed(s, ids).table[id] == s.table[id].(closed := AllClosed(s, ids).table[id].closed)
    decreases |ids|
  {
    if ids != [] {
      ClosingKeepsTable(Closed(s, ids[0]), ids[1..]);
    }
  }

  /** Two stages of one subscription: the same name, buffer size and filter. */
  predicate SameTerms(x: Subscription, y: Subscription) {
    x.name == y.name && x.cap == y.cap && x.all == y.all && x.filter == y.filter
  }

  lemma DroppingKeepsTerms(s: State, name: string, id: nat)
    requires id < |s.table|
    ensures |Dropped(s, name).table| == |s.table|
    ensures Dropped(s, name).table[id] == s.table[id].(closed := Dropped(s, name).table[id].closed)
  {
  }

  /** No step of anybody changes the terms of a subscription, nor takes back what it has received. */
  lemma StepKeepsTerms(s: State, a: Action, id: nat)
    requires Enabled(s, a) && id < |s.table|
    ensures id < |Step(s, a).table| && SameTerms(s.table[id], Step(s, a).table[id])
    ensures s.table[id].received <= Step(s, a).table[id].received
    ensures Step(s, a).table[id].due == s.table[id].due + DueBy(s, a, id)
  {
    match a
    case Close => ClosingKeepsTable(s.(closed := true), s.order);
    case Subscribe(name, _, _) =>
      DroppingKeepsTerms(s, name, id);
      hide Dropped;
    case Unsubscribe(name) =>
      DroppingKeepsTerms(s, name, id);
      hide Dropped;
    case _ =>
  }

  /** What a step makes due to a subscription. */
  function DueBy(s: State, a: Action, id: nat): seq<Sent>
    requires id < |s.table|
  {
    match a
    case StartPublish(p, e) => if !s.closed && id in s.order && Wants(s.table[id], e.kind) then [Sent(p, e)] else []
    case _ => []
  }

  lemma {:induction false} RunKeepsTerms(s: State, actions: seq<Action>, id: nat)
    requires ValidRun(s, actions) && id < |s.table|
    ensures id < |Run(s, actions).table| && SameTerms(s.table[id], Run(s, actions).table[id])
    ensures s.table[id].received <= Run(s, actions).table[id].received
    decreases |actions|
  {
    if actions != [] {
      StepKeepsTerms(s, actions[0], id);
      RunKeepsTerms(Step(s, actions[0]), actions[1..], id);
    }
  }

  // ---------- What it is due ----------

  /** What this step publishes of these types, if subscription `id` is registered on the open bus. */
  function PublishedBy(s: State, a: Action, id: nat, types: seq<nat>): seq<Sent> {
    match a
    case StartPublish(p, e) => if !s.closed && id in s.order && AsksFor(types, e.kind) then [Sent(p, e)] else []
    case _ => []
  }

  /** The events of these types that are published while subscription `id` is registered on the open bus. */
  function PublishedTo(s: State, actions: seq<Action>, id: nat, types: seq<nat>): seq<Sent>
    requires ValidRun(s, actions)
    decreases |actions|
  {
    if actions == [] then []
    else PublishedBy(s, actions[0], id, types) + PublishedTo(Step(s, actions[0]), actions[1..], id, types)
  }

  lemma TermsOfSame(x: Subscription, y: Subscription, name: string, buf: int, types: seq<nat>)
    requires HasTerms(x, name, buf, types) && SameTerms(x, y)
    ensures HasTerms(y, name, buf, types)
  {
    assert forall kind: nat :: Wants(y, kind) == Wants(x, kind);
  }

  /** What is due to a subscription is just what is published of the types it asked for. */
  lemma {:induction false} DueIsPublished(s: State, actions: seq<Action>, id: nat, name: string, buf: int, types: seq<nat>)
    requires ValidRun(s, actions) && id < |s.table| && HasTerms(s.table[id], name, buf, types)
    ensures id < |Run(s, actions).table| && HasTerms(Run(s, actions).table[id], name, buf, types)
    ensures Run(s, actions).table[id].due == s.table[id].due + PublishedTo(s, actions, id, types)
    decreases |actions|
  {
    if actions != [] {
      var t := Step(s, actions[0]);
      StepKeepsTerms(s, actions[0], id);
      TermsOfSame(s.table[id], t.table[id], name, buf, types);
      assert DueBy(s, actions[0], id) == PublishedBy(s, actions[0], id, types);
      hide Step, Enabled, Wants, HasTerms, SameTerms, DueBy, PublishedBy;
      DueIsPublished(t, actions[1..], id, name, buf, types);
    }
  }

  /** From Subscribe on, under every interleaving: what is published of the types asked for while the
      subscription is registered is, once no publish is in flight, received, buffered or dropped; and what has
      been received or is buffered of one publisher is a part of that, in that publisher's order. */
  lemma SubscriberGetsItsTypes(s: State, name: string, buf: int, types: seq<nat>, actions: seq<Action>, p: nat)
    requires Inv(s) && NoneInFlight(s) && ValidRun(Step(s, Subscribe(name, buf, types)), actions)
    ensures var t, id := Run(Step(s, Subscribe(name, buf, types)), actions), |s.table|;
            var published := PublishedTo(Step(s, Subscribe(name, buf, types)), actions, id, types);
            && id < |t.table| && HasTerms(t.table[id], name, buf, types)
            && (NoneInFlight(t) ==>
                  |published| == |t.table[id].received| + |t.table[id].buffer| + t.table[id].dropped)
            && (p < |t.publishers| ==>
                  Subsequence(From(t.table[id].received + t.table[id].buffer, p), From(published, p)))
  {
    var u, id := Step(s, Subscribe(name, buf, types)), |s.table|;
    SubscribeRegisters(s, name, buf, types);
    SubscribeKeepsInv(s, name, buf, types);
    DueIsPublished(u, actions, id, name, buf, types);
    var t := Run(u, actions);
    assert [] + PublishedTo(u, actions, id, types) == PublishedTo(u, actions, id, types);
    hide Inv, Step, Run, ValidRun, HasTerms;
    if NoneInFlight(t) {
      PublishesAreAccountedFor(u, actions, id);
    }
    if p < |t.publishers| {
      PublisherOrderIsKept(u, actions, id, p);
    }
  }

  /** What a publish that nothing interrupts does to a registered subscription with the given terms. */
  predicate GetsOrMisses(x: Subscription, y: Subscription, buf: int, types: seq<nat>, sent: Sent, waiting: bool) {
    if !AsksFor(types, sent.event.kind) then
      y.received == x.received && y.buffer == x.buffer && y.dropped == x.dropped
    else if waiting && x.buffer == [] then
      y.received == x.received + [sent] && y.buffer == x.buffer && y.dropped == x.dropped
    else if |x.buffer| < buf then
      y.received == x.received && y.buffer == x.buffer + [sent] && y.dropped == x.dropped
    else y.received == x.received && y.buffer == x.buffer && y.dropped == x.dropped + 1
  }

  /** However long ago it subscribed, a registered subscriber gets an event that is published without
      interruption exactly if it asked for its type: it receives it, or has it buffered if there is room in the
      buffer it asked for, or has it counted as dropped. */
  lemma PublishMeetsTerms(s: State, p: nat, e: Event, handoffs: seq<bool>, j: nat, name: string, buf: int, types: seq<nat>)
    requires Inv(s) && Enabled(s, StartPublish(p, e)) && !s.closed && |handoffs| == |s.order| && j < |s.order|
    requires s.order[j] < |s.table| && HasTerms(s.table[s.order[j]], name, buf, types)
    ensures var publish := [StartPublish(p, e)] + RestOfPublish(p, handoffs);
            && ValidRun(s, publish) && s.order[j] < |Run(s, publish).table|
            && GetsOrMisses(s.table[s.order[j]], Run(s, publish).table[s.order[j]], buf, types, Sent(p, e), handoffs[j])
  {
    UninterruptedPublish(s, p, e, handoffs);
    var t := Run(s, [StartPublish(p, e)] + RestOfPublish(p, handoffs));
    assert DeliveredTo(s.table[s.order[j]], t.table[s.order[j]], Sent(p, e), handoffs[j]);
  }
}
