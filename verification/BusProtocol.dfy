/** events/bus.go under concurrency. Publishers hold the read lock while they walk the subscribers and
    try one non-blocking send at a time; Subscribe, Unsubscribe and Close hold the write lock, so they
    run while no publish is in flight; consumers receive at any time. */
module BusProtocol {
  import opened Base

  const MAX_TYPE := 12

  datatype Event = Event(kind: nat, payload: nat)

  /** An event together with the publisher that published it. */
  datatype Sent = Sent(publisher: nat, event: Event)

  datatype Offer = Offer(sent: Sent, accepted: bool)

  /** A subscription with its channel. What it has received, what was offered to it and what it was due
      record its history; the program keeps only the buffer, the closed flag and the drop counter. */
  datatype Subscription = Subscription(
    name: string, cap: nat, all: bool, filter: set<nat>,
    buffer: seq<Sent>, closed: bool, dropped: nat,
    received: seq<Sent>, offered: seq<Offer>, due: seq<Sent>)

  datatype Publisher = Idle | Publishing(event: Event, next: nat)

  datatype State = State(
    subs: map<string, nat>, order: seq<nat>, closed: bool,
    table: seq<Subscription>, publishers: seq<Publisher>, panicked: bool)

  datatype Action =
    | StartPublish(p: nat, event: Event)
    | TrySend(p: nat, handoff: bool)
    | EndPublish(p: nat)
    | Receive(id: nat)
    | Subscribe(name: string, buf: int, types: seq<nat>)
    | Unsubscribe(name: string)
    | Close

  /** A bus with `n` goroutines that may publish. */
  function Initial(n: nat): State {
    State(map[], [], false, [], seq(n, _ => Idle), false)
  }

  predicate Wants(s: Subscription, kind: nat) {
    s.all || (kind < MAX_TYPE && kind in s.filter)
  }

  function NewSubscription(name: string, buf: int, types: seq<nat>): Subscription {
    Subscription(name, Max(buf, 0), types == [], set t | t in types && t < MAX_TYPE, [], false, 0, [], [], [])
  }

  /** Nobody holds the read lock. */
  predicate NoneInFlight(s: State) {
    forall p :: 0 <= p < |s.publishers| ==> s.publishers[p].Idle?
  }

  predicate Enabled(s: State, a: Action) {
    match a
    case StartPublish(p, _) => p < |s.publishers| && s.publishers[p].Idle?
    case TrySend(p, _) => p < |s.publishers| && s.publishers[p].Publishing? && s.publishers[p].next < |s.order|
    case EndPublish(p) => p < |s.publishers| && s.publishers[p].Publishing? && s.publishers[p].next >= |s.order|
    case Receive(id) => id < |s.table| && s.table[id].buffer != []
    case _ => NoneInFlight(s)
  }

  /** Channel close: closing a closed channel panics. */
  function Closed(s: State, id: nat): State {
    if id >= |s.table| then s
    else if s.table[id].closed then s.(panicked := true)
    else s.(table := s.table[id := s.table[id].(closed := true)])
  }

  function AllClosed(s: State, ids: seq<nat>): State
    decreases |ids|
  {
    if ids == [] then s else AllClosed(Closed(s, ids[0]), ids[1..])
  }

  /** removeLocked: drops a subscriber and closes its channel. */
  function Dropped(s: State, name: string): State {
    if name !in s.subs then s
    else Closed(s.(subs := s.subs - {name}, order := Without(s.order, s.subs[name])), s.subs[name])
  }

  /** A subscription whose channel gets one non-blocking send. `handoff` says whether a consumer is waiting
      on the empty channel, in which case the event goes straight to it. */
  function Offered(x: Subscription, sent: Sent, handoff: bool): Subscription {
    if handoff && x.buffer == [] then
      x.(received := x.received + [sent], offered := x.offered + [Offer(sent, true)])
    else if |x.buffer| < x.cap then
      x.(buffer := x.buffer + [sent], offered := x.offered + [Offer(sent, true)])
    else
      x.(dropped := x.dropped + 1, offered := x.offered + [Offer(sent, false)])
  }

  function Step(s: State, a: Action): State
    requires Enabled(s, a)
  {
    match a
    case StartPublish(p, e) =>
      if s.closed then s
      else
        s.(publishers := s.publishers[p := Publishing(e, 0)],
           table := seq(|s.table|, id requires 0 <= id < |s.table| =>
             if id in s.order && Wants(s.table[id], e.kind) then s.table[id].(due := s.table[id].due + [Sent(p, e)])
             else s.table[id]))
    case TrySend(p, handoff) =>
      var Publishing(e, i) := s.publishers[p];
      var id := s.order[i];
      var t := s.(publishers := s.publishers[p := Publishing(e, i + 1)]);
      if id >= |s.table| || !Wants(s.table[id], e.kind) then t
      else if s.table[id].closed then t.(panicked := true)
      else t.(table := s.table[id := Offered(s.table[id], Sent(p, e), handoff)])
    case EndPublish(p) => s.(publishers := s.publishers[p := Idle])
    case Receive(id) =>
      var x := s.table[id];
      s.(table := s.table[id := x.(buffer := x.buffer[1..], received := x.received + [x.buffer[0]])])
    case Subscribe(name, buf, types) =>
      var x := NewSubscription(name, buf, types);
      if s.closed then s.(table := s.table + [x.(closed := true)])
      else
        var t := Dropped(s, name);
        t.(subs := t.subs[name := |t.table|], order := t.order + [|t.table|], table := t.table + [x])
    case Unsubscribe(name) => Dropped(s, name)
    case Close =>
      if s.closed then s
      else AllClosed(s.(closed := true), s.order).(subs := map[], order := [])
  }

  // ---------- The invariant ----------

  /** `subs` and `order` hold the same subscribers, whose channels are the open ones. */
  ghost predicate Registered(s: State) {
    && NoDup(s.order)
    && (forall id :: id in s.order ==> id < |s.table| && s.table[id].name in s.subs && s.subs[s.table[id].name] == id)
    && (forall name :: name in s.subs ==> s.subs[name] in s.order && s.table[s.subs[name]].name == name)
    && (forall id :: 0 <= id < |s.table| ==> (s.table[id].closed <==> id !in s.order))
    && (s.closed ==> s.order == [])
  }

  function Accepted(offers: seq<Offer>): seq<Sent> {
    if offers == [] then []
    else
      var n := |offers| - 1;
      Accepted(offers[..n]) + if offers[n].accepted then [offers[n].sent] else []
  }

  function SentIn(offers: seq<Offer>): (r: seq<Sent>)
    ensures |r| == |offers|
  {
    seq(|offers|, i requires 0 <= i < |offers| => offers[i].sent)
  }

  /** The part of a history that comes from one publisher. */
  function From(sents: seq<Sent>, p: nat): seq<Sent> {
    if sents == [] then []
    else
      var n := |sents| - 1;
      From(sents[..n], p) + if sents[n].publisher == p then [sents[n]] else []
  }

  /** A channel loses nothing and keeps order: what was accepted is what was received, then what is
      buffered, and the rest was dropped. */
  ghost predicate ChannelOk(x: Subscription) {
    && x.received + x.buffer == Accepted(x.offered)
    && |x.offered| == |x.received| + |x.buffer| + x.dropped
    && |x.buffer| <= x.cap
  }

  /** Whether a publisher still has to offer its event to subscription `id`. */
  predicate Owes(pub: Publisher, order: seq<nat>, id: nat, x: Subscription) {
    pub.Publishing? && pub.next <= |order| && id in order[pub.next..] && Wants(x, pub.event.kind)
  }

  function Owed(pub: Publisher, order: seq<nat>, id: nat, x: Subscription, p: nat): seq<Sent> {
    if Owes(pub, order, id, x) then [Sent(p, pub.event)] else []
  }

  function OwesOne(order: seq<nat>, id: nat, x: Subscription): Publisher -> nat {
    pub => if Owes(pub, order, id, x) then 1 else 0
  }

  function OwedCount(pubs: seq<Publisher>, order: seq<nat>, id: nat, x: Subscription): nat {
    Tally(pubs, OwesOne(order, id, x))
  }

  /** Of every publisher, a subscription has been offered what it was due, except what is still owed. */
  ghost predicate HistoryOk(x: Subscription, pubs: seq<Publisher>, order: seq<nat>, id: nat) {
    && (forall p :: 0 <= p < |pubs| ==>
          From(x.due, p) == From(SentIn(x.offered), p) + Owed(pubs[p], order, id, x, p))
    && |x.due| == |x.offered| + OwedCount(pubs, order, id, x)
  }

  ghost predicate Inv(s: State) {
    && !s.panicked && Registered(s)
    && (forall id :: 0 <= id < |s.table| ==>
          ChannelOk(s.table[id]) && HistoryOk(s.table[id], s.publishers, s.order, id))
  }

  lemma InitialInv(n: nat)
    ensures Inv(Initial(n))
  {
  }

  // ---------- Histories ----------

  lemma FromAppend(sents: seq<Sent>, x: Sent, p: nat)
    ensures From(sents + [x], p) == From(sents, p) + if x.publisher == p then [x] else []
  {
    assert (sents + [x])[..|sents|] == sents;
  }

  lemma AcceptedAppend(offers: seq<Offer>, o: Offer)
    ensures Accepted(offers + [o]) == Accepted(offers) + if o.accepted then [o.sent] else []
    ensures SentIn(offers + [o]) == SentIn(offers) + [o.sent]
  {
    assert (offers + [o])[..|offers|] == offers;
  }

  lemma OwedCountUpdate(pubs: seq<Publisher>, order: seq<nat>, id: nat, x: Subscription, p: nat, pub: Publisher)
    requires p < |pubs|
    ensures OwedCount(pubs[p := pub], order, id, x) ==
              OwedCount(pubs, order, id, x) - (if Owes(pubs[p], order, id, x) then 1 else 0)
              + (if Owes(pub, order, id, x) then 1 else 0)
  {
    TallyUpdate(pubs, p, pub, OwesOne(order, id, x));
  }

  /** Who owes what depends on a subscription only through its filter. */
  lemma OwedCountByFilter(pubs: seq<Publisher>, order: seq<nat>, id: nat, x: Subscription, y: Subscription)
    requires x.all == y.all && x.filter == y.filter
    ensures OwedCount(pubs, order, id, x) == OwedCount(pubs, order, id, y)
  {
    TallyMonotone(pubs, OwesOne(order, id, x), OwesOne(order, id, y));
    TallyMonotone(pubs, OwesOne(order, id, y), OwesOne(order, id, x));
  }

  lemma NothingOwed(pubs: seq<Publisher>, order: seq<nat>, id: nat, x: Subscription)
    requires forall p :: 0 <= p < |pubs| ==> pubs[p].Idle?
    ensures OwedCount(pubs, order, id, x) == 0
  {
    TallyZero(pubs, OwesOne(order, id, x));
  }

  lemma OthersOwe(pubs: seq<Publisher>, order: seq<nat>, id: nat, x: Subscription, y: Subscription)
    requires x.all == y.all && x.filter == y.filter
    ensures forall q :: 0 <= q < |pubs| ==> Owes(pubs[q], order, id, x) == Owes(pubs[q], order, id, y)
  {
  }

  lemma StartOwes(x: Subscription, x': Subscription, pubs: seq<Publisher>, order: seq<nat>, id: nat, p: nat, e: Event)
    requires p < |pubs| && pubs[p].Idle? && x.all == x'.all && x.filter == x'.filter
    ensures Owes(Publishing(e, 0), order, id, x') <==> id in order && Wants(x, e.kind)
    ensures OwedCount(pubs[p := Publishing(e, 0)], order, id, x') ==
              OwedCount(pubs, order, id, x) + if id in order && Wants(x, e.kind) then 1 else 0
  {
    assert order[0..] == order;
    OwedCountUpdate(pubs, order, id, x, p, Publishing(e, 0));
    OwedCountByFilter(pubs[p := Publishing(e, 0)], order, id, x, x');
  }

  lemma StartMakesDue(x: Subscription, x': Subscription, pubs: seq<Publisher>, order: seq<nat>, id: nat,
                      p: nat, e: Event, q: nat)
    requires p < |pubs| && q < |pubs| && pubs[p].Idle?
    requires x' == if id in order && Wants(x, e.kind) then x.(due := x.due + [Sent(p, e)]) else x
    requires From(x.due, q) == From(SentIn(x.offered), q) + Owed(pubs[q], order, id, x, q)
    ensures From(x'.due, q) == From(SentIn(x'.offered), q) + Owed(pubs[p := Publishing(e, 0)][q], order, id, x', q)
  {
    FromAppend(x.due, Sent(p, e), q);
    StartOwes(x, x', pubs, order, id, p, e);
    OthersOwe(pubs, order, id, x, x');
    hide OwedCount, From, SentIn;
  }

  /** A publisher that starts owes its event to every subscriber that wants it, and makes it due there. */
  lemma StartKeepsHistory(x: Subscription, pubs: seq<Publisher>, order: seq<nat>, id: nat, p: nat, e: Event)
    requires HistoryOk(x, pubs, order, id) && p < |pubs| && pubs[p].Idle?
    ensures var x' := if id in order && Wants(x, e.kind) then x.(due := x.due + [Sent(p, e)]) else x;
            HistoryOk(x', pubs[p := Publishing(e, 0)], order, id)
  {
    var pub := Publishing(e, 0);
    var x' := if id in order && Wants(x, e.kind) then x.(due := x.due + [Sent(p, e)]) else x;
    hide Owes, Wants, OwedCount, Owed, From, SentIn;
    StartOwes(x, x', pubs, order, id, p, e);
    forall q | 0 <= q < |pubs|
      ensures From(x'.due, q) == From(SentIn(x'.offered), q) + Owed(pubs[p := pub][q], order, id, x', q)
    {
      StartMakesDue(x, x', pubs, order, id, p, e, q);
    }
  }

  lemma SliceStep(order: seq<nat>, i: nat, id: nat)
    requires NoDup(order) && i < |order|
    ensures id in order[i + 1..] <==> id in order[i..] && id != order[i]
  {
    assert order[i..] == [order[i]] + order[i + 1..];
  }

  /** Advancing past one subscriber settles what was owed to it, and to nobody else. */
  lemma AdvanceSettles(x: Subscription, x': Subscription, pub: Publisher, order: seq<nat>, id: nat)
    requires NoDup(order) && pub.Publishing? && pub.next < |order|
    requires x'.all == x.all && x'.filter == x.filter
    ensures Owes(pub.(next := pub.next + 1), order, id, x') <==> Owes(pub, order, id, x) && id != order[pub.next]
    ensures order[pub.next] == id && Wants(x, pub.event.kind) ==> Owes(pub, order, id, x)
  {
    SliceStep(order, pub.next, id);
    assert order[pub.next] in order[pub.next..];
  }

  /** A publisher that passes a subscriber settles what it owed there, and nothing else. */
  lemma AdvanceKeepsHistory(x: Subscription, x': Subscription, pubs: seq<Publisher>, order: seq<nat>, id: nat, p: nat)
    requires HistoryOk(x, pubs, order, id) && NoDup(order) && p < |pubs|
    requires pubs[p].Publishing? && pubs[p].next < |order|
    requires x'.due == x.due && x'.all == x.all && x'.filter == x.filter
    requires if order[pubs[p].next] == id && Wants(x, pubs[p].event.kind)
             then |x'.offered| == |x.offered| + 1 && SentIn(x'.offered) == SentIn(x.offered) + [Sent(p, pubs[p].event)]
             else x'.offered == x.offered
    ensures HistoryOk(x', pubs[p := pubs[p].(next := pubs[p].next + 1)], order, id)
  {
    var pub := pubs[p].(next := pubs[p].next + 1);
    AdvanceSettles(x, x', pubs[p], order, id);
    AdvanceSettles(x, x, pubs[p], order, id);
    OwedCountUpdate(pubs, order, id, x, p, pub);
    OwedCountByFilter(pubs[p := pub], order, id, x, x');
    OthersOwe(pubs, order, id, x, x');
    hide Owes;
    forall q | 0 <= q < |pubs|
      ensures From(x'.due, q) == From(SentIn(x'.offered), q) + Owed(pubs[p := pub][q], order, id, x', q)
    {
      FromAppend(SentIn(x.offered), Sent(p, pub.event), q);
    }
  }

  lemma EndKeepsHistory(x: Subscription, pubs: seq<Publisher>, order: seq<nat>, id: nat, p: nat)
    requires HistoryOk(x, pubs, order, id) && p < |pubs| && pubs[p].Publishing? && pubs[p].next >= |order|
    ensures HistoryOk(x, pubs[p := Idle], order, id)
  {
    OwedCountUpdate(pubs, order, id, x, p, Idle);
  }

  /** While nobody publishes, the histories do not depend on the registered subscribers. */
  lemma IdleHistory(x: Subscription, y: Subscription, pubs: seq<Publisher>, order: seq<nat>, order': seq<nat>, id: nat)
    requires HistoryOk(x, pubs, order, id) && x.due == y.due && x.offered == y.offered
    requires forall p :: 0 <= p < |pubs| ==> pubs[p].Idle?
    ensures HistoryOk(y, pubs, order', id)
  {
    NothingOwed(pubs, order, id, x);
    NothingOwed(pubs, order', id, y);
  }

  // ---------- Publishers ----------

  lemma OfferKeepsChannel(x: Subscription, sent: Sent, handoff: bool)
    requires ChannelOk(x)
    ensures ChannelOk(Offered(x, sent, handoff))
    ensures SentIn(Offered(x, sent, handoff).offered) == SentIn(x.offered) + [sent]
    ensures |Offered(x, sent, handoff).offered| == |x.offered| + 1
  {
    AcceptedAppend(x.offered, Offer(sent, true));
    AcceptedAppend(x.offered, Offer(sent, false));
    assert x.received + (x.buffer + [sent]) == (x.received + x.buffer) + [sent];
    assert x.buffer == [] ==> (x.received + [sent]) + x.buffer == x.received + x.buffer + [sent];
  }

  lemma StartKeepsInv(s: State, p: nat, e: Event)
    requires Inv(s) && Enabled(s, StartPublish(p, e))
    ensures Inv(Step(s, StartPublish(p, e)))
  {
    var t := Step(s, StartPublish(p, e));
    if !s.closed {
      forall id | 0 <= id < |s.table|
        ensures ChannelOk(t.table[id]) && HistoryOk(t.table[id], t.publishers, t.order, id)
        ensures t.table[id].name == s.table[id].name && t.table[id].closed == s.table[id].closed
      {
        StartKeepsHistory(s.table[id], s.publishers, s.order, id, p, e);
      }
    }
  }

  /** Registration looks only at the names and closed flags of the subscriptions. */
  lemma SameRegistration(s: State, t: State)
    requires Registered(s) && t.subs == s.subs && t.order == s.order && t.closed == s.closed
    requires |t.table| == |s.table|
    requires forall id :: 0 <= id < |s.table| ==>
               t.table[id].name == s.table[id].name && t.table[id].closed == s.table[id].closed
    ensures Registered(t)
  {
  }

  lemma TrySendKeepsTable(s: State, p: nat, handoff: bool, id: nat)
    requires Inv(s) && Enabled(s, TrySend(p, handoff)) && id < |s.table|
    ensures var t := Step(s, TrySend(p, handoff));
            && !t.panicked && |t.table| == |s.table|
            && ChannelOk(t.table[id]) && HistoryOk(t.table[id], t.publishers, t.order, id)
            && t.table[id].name == s.table[id].name && t.table[id].closed == s.table[id].closed
  {
    hide ChannelOk, HistoryOk;
    var t, pub := Step(s, TrySend(p, handoff)), s.publishers[p];
    assert s.order[pub.next] in s.order;
    assert ChannelOk(s.table[id]) && HistoryOk(s.table[id], s.publishers, s.order, id);
    if id == s.order[pub.next] && Wants(s.table[id], pub.event.kind) {
      OfferKeepsHistory(s.table[id], s.publishers, s.order, id, p, handoff);
    } else {
      AdvanceKeepsHistory(s.table[id], s.table[id], s.publishers, s.order, id, p);
    }
  }

  lemma OfferKeepsHistory(x: Subscription, pubs: seq<Publisher>, order: seq<nat>, id: nat, p: nat, handoff: bool)
    requires ChannelOk(x) && HistoryOk(x, pubs, order, id) && NoDup(order) && p < |pubs|
    requires pubs[p].Publishing? && pubs[p].next < |order|
    requires order[pubs[p].next] == id && Wants(x, pubs[p].event.kind)
    ensures var y := Offered(x, Sent(p, pubs[p].event), handoff);
            ChannelOk(y) && HistoryOk(y, pubs[p := pubs[p].(next := pubs[p].next + 1)], order, id)
  {
    OfferKeepsChannel(x, Sent(p, pubs[p].event), handoff);
    AdvanceKeepsHistory(x, Offered(x, Sent(p, pubs[p].event), handoff), pubs, order, id, p);
  }

  lemma TrySendKeepsInv(s: State, p: nat, handoff: bool)
    requires Inv(s) && Enabled(s, TrySend(p, handoff))
    ensures Inv(Step(s, TrySend(p, handoff)))
  {
    hide ChannelOk, HistoryOk, Offered;
    var t := Step(s, TrySend(p, handoff));
    assert s.order[s.publishers[p].next] in s.order;
    forall id | 0 <= id < |s.table|
      ensures ChannelOk(t.table[id]) && HistoryOk(t.table[id], t.publishers, t.order, id)
      ensures t.table[id].name == s.table[id].name && t.table[id].closed == s.table[id].closed
    {
      TrySendKeepsTable(s, p, handoff, id);
    }
    SameRegistration(s, t);
  }

  lemma EndKeepsInv(s: State, p: nat)
    requires Inv(s) && Enabled(s, EndPublish(p))
    ensures Inv(Step(s, EndPublish(p)))
  {
    forall id | 0 <= id < |s.table|
      ensures HistoryOk(s.table[id], s.publishers[p := Idle], s.order, id)
    {
      EndKeepsHistory(s.table[id], s.publishers, s.order, id, p);
    }
  }

  lemma ReceiveKeepsInv(s: State, id: nat)
    requires Inv(s) && Enabled(s, Receive(id))
    ensures Inv(Step(s, Receive(id)))
  {
    var x, t := s.table[id], Step(s, Receive(id));
    ReceiveKeepsChannel(x, s.publishers, s.order, id);
    hide ChannelOk, HistoryOk;
    SameRegistration(s, t);
  }

  lemma ReceiveKeepsChannel(x: Subscription, pubs: seq<Publisher>, order: seq<nat>, id: nat)
    requires ChannelOk(x) && HistoryOk(x, pubs, order, id) && x.buffer != []
    ensures var y := x.(buffer := x.buffer[1..], received := x.received + [x.buffer[0]]);
            ChannelOk(y) && HistoryOk(y, pubs, order, id)
  {
    var y := x.(buffer := x.buffer[1..], received := x.received + [x.buffer[0]]);
    assert x.received + [x.buffer[0]] + x.buffer[1..] == x.received + x.buffer;
    OwedCountByFilter(pubs, order, id, x, y);
  }

  // ---------- Writers ----------

  lemma DropKeepsRegistered(s: State, name: string)
    requires Registered(s)
    ensures Registered(Dropped(s, name)) && name !in Dropped(s, name).subs
    ensures Dropped(s, name).panicked == s.panicked && Dropped(s, name).closed == s.closed
    ensures Dropped(s, name).publishers == s.publishers
    ensures |Dropped(s, name).table| == |s.table|
    ensures forall id :: 0 <= id < |s.table| ==>
              Dropped(s, name).table[id] == s.table[id].(closed := Dropped(s, name).table[id].closed)
  {
    if name in s.subs {
      assert s.subs[name] in s.order;
      WithoutProps(s.order, s.subs[name]);
    }
  }

  /** Removing a subscriber closes an open channel, once. */
  lemma DropKeepsInv(s: State, name: string)
    requires Inv(s) && NoneInFlight(s)
    ensures Inv(Dropped(s, name)) && NoneInFlight(Dropped(s, name))
    ensures name !in Dropped(s, name).subs
    ensures Dropped(s, name).closed == s.closed
  {
    var t := Dropped(s, name);
    DropKeepsRegistered(s, name);
    forall id | 0 <= id < |t.table|
      ensures ChannelOk(t.table[id]) && HistoryOk(t.table[id], t.publishers, t.order, id)
    {
      IdleHistory(s.table[id], t.table[id], s.publishers, s.order, t.order, id);
    }
  }

  lemma NewKeepsRegistered(s: State, x: Subscription)
    requires Registered(s) && !s.closed && x.name !in s.subs && !x.closed
    ensures Registered(s.(subs := s.subs[x.name := |s.table|], order := s.order + [|s.table|], table := s.table + [x]))
  {
    var n, t := |s.table|, s.(subs := s.subs[x.name := |s.table|], order := s.order + [|s.table|], table := s.table + [x]);
    assert n !in s.order;
    assert forall id :: id in t.order <==> id in s.order || id == n;
    NoDupConcat(s.order, [n]);
  }

  /** A table with one more subscription, of no history, while nobody publishes. */
  lemma NewKeepsHistories(s: State, x: Subscription, order: seq<nat>)
    requires Inv(s) && NoneInFlight(s) && x.cap >= 0
    requires x.buffer == [] && x.received == [] && x.offered == [] && x.due == [] && x.dropped == 0
    ensures forall id :: 0 <= id < |s.table| + 1 ==>
              ChannelOk((s.table + [x])[id]) && HistoryOk((s.table + [x])[id], s.publishers, order, id)
  {
    forall id | 0 <= id < |s.table| + 1
      ensures ChannelOk((s.table + [x])[id]) && HistoryOk((s.table + [x])[id], s.publishers, order, id)
    {
      if id < |s.table| {
        IdleHistory(s.table[id], s.table[id], s.publishers, s.order, order, id);
      } else {
        NothingOwed(s.publishers, order, id, x);
      }
    }
  }

  lemma SubscribeKeepsInv(s: State, name: string, buf: int, types: seq<nat>)
    requires Inv(s) && NoneInFlight(s)
    ensures Inv(Step(s, Subscribe(name, buf, types)))
  {
    var x := NewSubscription(name, buf, types);
    if s.closed {
      NewKeepsHistories(s, x.(closed := true), s.order);
    } else {
      DropKeepsInv(s, name);
      var d := Dropped(s, name);
      NewKeepsRegistered(d, x);
      NewKeepsHistories(d, x, d.order + [|d.table|]);
    }
  }

  /** Closing distinct open channels does not panic, and closes just these. */
  lemma {:induction false} CloseAllOpen(s: State, ids: seq<nat>)
    requires NoDup(ids) && forall id :: id in ids ==> id < |s.table| && !s.table[id].closed
    ensures var t := AllClosed(s, ids);
            && t == s.(table := t.table) && |t.table| == |s.table|
            && forall id :: 0 <= id < |s.table| ==>
                 t.table[id] == s.table[id].(closed := s.table[id].closed || id in ids)
    decreases |ids|
  {
    if ids != [] {
      assert ids[0] in ids;
      forall id | id in ids[1..]
        ensures id in ids && id != ids[0]
      {
      }
      CloseAllOpen(Closed(s, ids[0]), ids[1..]);
    }
  }

  lemma CloseKeepsInv(s: State)
    requires Inv(s) && NoneInFlight(s)
    ensures Inv(Step(s, Close))
  {
    var t := Step(s, Close);
    if !s.closed {
      CloseAllOpen(s.(closed := true), s.order);
      forall i | 0 <= i < |s.table|
        ensures ChannelOk(t.table[i]) && HistoryOk(t.table[i], t.publishers, t.order, i)
      {
        IdleHistory(s.table[i], t.table[i], s.publishers, s.order, t.order, i);
      }
    }
  }

  lemma StepKeepsInv(s: State, a: Action)
    requires Inv(s) && Enabled(s, a)
    ensures Inv(Step(s, a))
  {
    match a
    case StartPublish(p, e) => StartKeepsInv(s, p, e);
    case TrySend(p, handoff) => TrySendKeepsInv(s, p, handoff);
    case EndPublish(p) => EndKeepsInv(s, p);
    case Receive(id) => ReceiveKeepsInv(s, id);
    case Subscribe(name, buf, types) => SubscribeKeepsInv(s, name, buf, types);
    case Unsubscribe(name) => DropKeepsInv(s, name);
    case Close => CloseKeepsInv(s);
  }

  // ---------- Runs ----------

  predicate ValidRun(s: State, actions: seq<Action>)
    decreases |actions|
  {
    actions != [] ==> Enabled(s, actions[0]) && ValidRun(Step(s, actions[0]), actions[1..])
  }

  function Run(s: State, actions: seq<Action>): State
    requires ValidRun(s, actions)
    decreases |actions|
  {
    if actions == [] then s else Run(Step(s, actions[0]), actions[1..])
  }

  lemma {:induction false} RunKeepsInv(s: State, actions: seq<Action>)
    requires Inv(s) && ValidRun(s, actions)
    ensures Inv(Run(s, actions))
    decreases |actions|
  {
    if actions != [] {
      StepKeepsInv(s, actions[0]);
      RunKeepsInv(Step(s, actions[0]), actions[1..]);
    }
  }

  /** Under every interleaving: no send ever hits a closed channel, no channel is closed twice, and the
      map and the list of subscribers hold the same ones. */
  lemma BusNeverPanics(s: State, actions: seq<Action>)
    requires Inv(s) && ValidRun(s, actions)
    ensures !Run(s, actions).panicked && Registered(Run(s, actions))
  {
    RunKeepsInv(s, actions);
  }

  /** Conservation: whenever no publish is in flight, the publishes that matched a subscription while it
      was registered are exactly those it has received, has buffered, or has dropped. */
  lemma PublishesAreAccountedFor(s: State, actions: seq<Action>, id: nat)
    requires Inv(s) && ValidRun(s, actions)
    requires NoneInFlight(Run(s, actions)) && id < |Run(s, actions).table|
    ensures var x := Run(s, actions).table[id]; |x.due| == |x.received| + |x.buffer| + x.dropped
  {
    RunKeepsInv(s, actions);
    var t := Run(s, actions);
    assert HistoryOk(t.table[id], t.publishers, t.order, id);
    NothingOwed(t.publishers, t.order, id, t.table[id]);
  }

  /** `a` is `b` with some elements left out. */
  predicate Subsequence<T(==)>(a: seq<T>, b: seq<T>)
    decreases |b|
  {
    if b == [] then a == []
    else
      var n := |b| - 1;
      Subsequence(a, b[..n]) || (a != [] && a[|a| - 1] == b[n] && Subsequence(a[..|a| - 1], b[..n]))
  }

  lemma SubsequenceGrows<T>(a: seq<T>, b: seq<T>, x: T)
    requires Subsequence(a, b)
    ensures Subsequence(a + [x], b + [x]) && Subsequence(a, b + [x])
  {
    assert (a + [x])[..|a|] == a && (b + [x])[..|b|] == b;
  }

  lemma {:induction false} AcceptedInOrder(offers: seq<Offer>, p: nat)
    ensures Subsequence(From(Accepted(offers), p), From(SentIn(offers), p))
  {
    if offers != [] {
      var n := |offers| - 1;
      var front, o := offers[..n], offers[n];
      AcceptedInOrder(front, p);
      assert offers == front + [o];
      AcceptedAppend(front, o);
      FromAppend(SentIn(front), o.sent, p);
      FromAppend(Accepted(front), o.sent, p);
      var a, b := From(Accepted(front), p), From(SentIn(front), p);
      SubsequenceGrows(a, b, o.sent);
      assert a + [] == a && b + [] == b && Accepted(front) + [] == Accepted(front);
    }
  }

  /** Order: whatever a subscriber has received or buffered of one publisher is, in that publisher's
      order, among what that publisher has published for it. */
  lemma PublisherOrderIsKept(s: State, actions: seq<Action>, id: nat, p: nat)
    requires Inv(s) && ValidRun(s, actions)
    requires id < |Run(s, actions).table| && p < |Run(s, actions).publishers|
    ensures var x := Run(s, actions).table[id];
            Subsequence(From(x.received + x.buffer, p), From(x.due, p))
  {
    RunKeepsInv(s, actions);
    var t := Run(s, actions);
    var x := t.table[id];
    AcceptedInOrder(x.offered, p);
    assert HistoryOk(x, t.publishers, t.order, id);
    var owed := Owed(t.publishers[p], t.order, id, x, p);
    SubsequenceOfLonger(From(Accepted(x.offered), p), From(SentIn(x.offered), p), owed);
  }

  lemma SubsequenceOfLonger<T>(a: seq<T>, b: seq<T>, more: seq<T>)
    requires Subsequence(a, b) && |more| <= 1
    ensures Subsequence(a, b + more)
  {
    if more == [] {
      assert b + more == b;
    } else {
      assert more == [more[0]];
      SubsequenceGrows(a, b, more[0]);
    }
  }

  // ---------- A publish that nothing interrupts ----------

  /** The sends of a publish that are still to come, and its end. `handoffs` says at which of them a consumer
      is waiting. */
  function RestOfPublish(p: nat, handoffs: seq<bool>): seq<Action> {
    if handoffs == [] then [EndPublish(p)] else [TrySend(p, handoffs[0])] + RestOfPublish(p, handoffs[1..])
  }

  lemma RunFirst(s: State, a: Action, rest: seq<Action>)
    requires Enabled(s, a) && ValidRun(Step(s, a), rest)
    ensures ValidRun(s, [a] + rest) && Run(s, [a] + rest) == Run(Step(s, a), rest)
  {
    assert ([a] + rest)[1..] == rest;
  }

  /** What one send leaves in the channel of a subscriber. */
  function Served(x: Subscription, sent: Sent, handoff: bool): Subscription {
    if Wants(x, sent.event.kind) then Offered(x, sent, handoff) else x
  }

  /** One send reaches just the subscriber the publisher has come to. */
  lemma SendReaches(s: State, p: nat, e: Event, i: nat, handoff: bool)
    requires Inv(s) && p < |s.publishers| && s.publishers[p] == Publishing(e, i) && i < |s.order|
    ensures Enabled(s, TrySend(p, handoff)) && s.order[i] < |s.table|
    ensures Step(s, TrySend(p, handoff)) ==
              s.(publishers := s.publishers[p := Publishing(e, i + 1)],
                 table := s.table[s.order[i] := Served(s.table[s.order[i]], Sent(p, e), handoff)])
  {
    hide Offered, Inv, Wants;
    OpenChannel(s, i);
    assert s.table[s.order[i] := s.table[s.order[i]]] == s.table;
  }

  lemma OpenChannel(s: State, i: nat)
    requires Inv(s) && i < |s.order|
    ensures s.order[i] < |s.table| && !s.table[s.order[i]].closed
  {
    assert s.order[i] in s.order;
  }

  /** The rest of a publish, from the subscriber at position `i` on. */
  ghost predicate RestDelivered(s: State, t: State, p: nat, e: Event, i: nat, handoffs: seq<bool>)
    requires p < |s.publishers| && |handoffs| + i == |s.order|
  {
    && t == s.(publishers := s.publishers[p := Idle], table := t.table) && |t.table| == |s.table|
    && (forall j :: i <= j < |s.order| && s.order[j] < |s.table| ==>
          t.table[s.order[j]] == Served(s.table[s.order[j]], Sent(p, e), handoffs[j - i]))
    && (forall id :: 0 <= id < |s.table| && id !in s.order[i..] ==> t.table[id] == s.table[id])
  }

  lemma DeliveredOneMore(s: State, t: State, p: nat, e: Event, i: nat, handoffs: seq<bool>)
    requires NoDup(s.order) && p < |s.publishers| && |handoffs| + i == |s.order| && i < |s.order|
    requires s.order[i] < |s.table|
    requires RestDelivered(
               s.(publishers := s.publishers[p := Publishing(e, i + 1)],
                  table := s.table[s.order[i] := Served(s.table[s.order[i]], Sent(p, e), handoffs[0])]),
               t, p, e, i + 1, handoffs[1..])
    ensures RestDelivered(s, t, p, e, i, handoffs)
  {
    var m := s.(publishers := s.publishers[p := Publishing(e, i + 1)],
                table := s.table[s.order[i] := Served(s.table[s.order[i]], Sent(p, e), handoffs[0])]);
    assert m.publishers[p := Idle] == s.publishers[p := Idle];
    hide Served;
    SliceStep(s.order, i, s.order[i]);
    assert t.table[s.order[i]] == m.table[s.order[i]];
    forall id | 0 <= id < |s.table| && id !in s.order[i..]
      ensures t.table[id] == s.table[id]
    {
      SliceStep(s.order, i, id);
      assert s.order[i] in s.order[i..];
    }
    forall j | i < j < |s.order| && s.order[j] < |s.table|
      ensures t.table[s.order[j]] == Served(s.table[s.order[j]], Sent(p, e), handoffs[j - i])
    {
      assert s.order[j] != s.order[i] && handoffs[1..][j - (i + 1)] == handoffs[j - i];
    }
  }

  lemma EndDelivers(s: State, p: nat, e: Event)
    requires p < |s.publishers| && s.publishers[p] == Publishing(e, |s.order|)
    ensures ValidRun(s, RestOfPublish(p, []))
    ensures RestDelivered(s, Run(s, RestOfPublish(p, [])), p, e, |s.order|, [])
  {
    RunFirst(s, EndPublish(p), []);
    assert [EndPublish(p)] + [] == [EndPublish(p)];
  }

  lemma SendThenRest(s: State, p: nat, e: Event, i: nat, handoffs: seq<bool>)
    requires Inv(s) && p < |s.publishers| && s.publishers[p] == Publishing(e, i)
    requires |handoffs| + i == |s.order| && handoffs != []
    requires var send, rest := TrySend(p, handoffs[0]), RestOfPublish(p, handoffs[1..]);
             && Enabled(s, send) && ValidRun(Step(s, send), rest)
             && |Step(s, send).publishers| == |s.publishers| && Step(s, send).order == s.order
             && RestDelivered(Step(s, send), Run(Step(s, send), rest), p, e, i + 1, handoffs[1..])
    ensures ValidRun(s, RestOfPublish(p, handoffs))
    ensures RestDelivered(s, Run(s, RestOfPublish(p, handoffs)), p, e, i, handoffs)
  {
    var send, rest := TrySend(p, handoffs[0]), RestOfPublish(p, handoffs[1..]);
    assert NoDup(s.order) && RestOfPublish(p, handoffs) == [send] + rest;
    hide *;
    SendReaches(s, p, e, i, handoffs[0]);
    RunFirst(s, send, rest);
    DeliveredOneMore(s, Run(Step(s, send), rest), p, e, i, handoffs);
  }

  lemma {:induction false} RestDelivers(s: State, p: nat, e: Event, i: nat, handoffs: seq<bool>)
    requires Inv(s) && p < |s.publishers| && s.publishers[p] == Publishing(e, i) && |handoffs| + i == |s.order|
    ensures ValidRun(s, RestOfPublish(p, handoffs))
    ensures RestDelivered(s, Run(s, RestOfPublish(p, handoffs)), p, e, i, handoffs)
    decreases |handoffs|
  {
    hide *;
    if handoffs == [] {
      EndDelivers(s, p, e);
    } else {
      SendReaches(s, p, e, i, handoffs[0]);
      TrySendKeepsInv(s, p, handoffs[0]);
      RestDelivers(Step(s, TrySend(p, handoffs[0])), p, e, i + 1, handoffs[1..]);
      SendThenRest(s, p, e, i, handoffs);
    }
  }

  /** Starting a publish makes the event due, and nothing more. */
  lemma StartReaches(s: State, p: nat, e: Event)
    requires Enabled(s, StartPublish(p, e)) && !s.closed
    ensures var m := Step(s, StartPublish(p, e));
            && m == s.(publishers := s.publishers[p := Publishing(e, 0)], table := m.table) && |m.table| == |s.table|
            && forall id :: 0 <= id < |s.table| ==> m.table[id] == s.table[id].(due := m.table[id].due)
  {
  }

  /** One subscriber wanting the event has received it, if it was waiting for one, or has it at the end of its
      buffer, or has one more drop because the buffer was full. */
  ghost predicate DeliveredTo(x: Subscription, y: Subscription, sent: Sent, handoff: bool) {
    if !Wants(x, sent.event.kind) then Unchanged(x, y)
    else if handoff && x.buffer == [] then
      y.received == x.received + [sent] && y.buffer == x.buffer && y.dropped == x.dropped
    else if |x.buffer| < x.cap then
      y.received == x.received && y.buffer == x.buffer + [sent] && y.dropped == x.dropped
    else y.received == x.received && y.buffer == x.buffer && y.dropped == x.dropped + 1
  }

  predicate Unchanged(x: Subscription, y: Subscription) {
    y.received == x.received && y.buffer == x.buffer && y.dropped == x.dropped
  }

  ghost predicate PublishDelivered(s: State, t: State, p: nat, e: Event, handoffs: seq<bool>)
    requires |handoffs| == |s.order|
  {
    && t.publishers == s.publishers && t.order == s.order && |t.table| == |s.table|
    && (forall j :: 0 <= j < |s.order| && s.order[j] < |s.table| ==>
          DeliveredTo(s.table[s.order[j]], t.table[s.order[j]], Sent(p, e), handoffs[j]))
    && (forall id :: 0 <= id < |s.table| && id !in s.order ==> Unchanged(s.table[id], t.table[id]))
  }

  lemma StartThenRest(s: State, m: State, t: State, p: nat, e: Event, handoffs: seq<bool>)
    requires p < |s.publishers| && s.publishers[p] == Idle && |handoffs| == |s.order|
    requires m == s.(publishers := s.publishers[p := Publishing(e, 0)], table := m.table) && |m.table| == |s.table|
    requires forall id :: 0 <= id < |s.table| ==> m.table[id] == s.table[id].(due := m.table[id].due)
    requires RestDelivered(m, t, p, e, 0, handoffs)
    ensures PublishDelivered(s, t, p, e, handoffs)
  {
    assert s.order[0..] == s.order;
    assert m.publishers[p := Idle] == s.publishers;
    hide Served, DeliveredTo;
    forall j | 0 <= j < |s.order| && s.order[j] < |s.table|
      ensures DeliveredTo(s.table[s.order[j]], t.table[s.order[j]], Sent(p, e), handoffs[j])
    {
      ServedIsDelivered(s.table[s.order[j]], m.table[s.order[j]], Sent(p, e), handoffs[j]);
    }
  }

  lemma ServedIsDelivered(x: Subscription, started: Subscription, sent: Sent, handoff: bool)
    requires started == x.(due := started.due)
    ensures DeliveredTo(x, Served(started, sent, handoff), sent, handoff)
  {
  }

  /** A publish that nothing interrupts does to the channels what the bus object's Publish does, wherever
      consumers are waiting. */
  lemma UninterruptedPublish(s: State, p: nat, e: Event, handoffs: seq<bool>)
    requires Inv(s) && Enabled(s, StartPublish(p, e)) && !s.closed && |handoffs| == |s.order|
    ensures var publish := [StartPublish(p, e)] + RestOfPublish(p, handoffs);
            ValidRun(s, publish) && PublishDelivered(s, Run(s, publish), p, e, handoffs)
  {
    assert p < |s.publishers| && s.publishers[p] == Idle;
    hide *;
    var start, rest := StartPublish(p, e), RestOfPublish(p, handoffs);
    var m := Step(s, start);
    StartKeepsInv(s, p, e);
    StartReaches(s, p, e);
    RestDelivers(m, p, e, 0, handoffs);
    RunFirst(s, start, rest);
    StartThenRest(s, m, Run(m, rest), p, e, handoffs);
  }
}
