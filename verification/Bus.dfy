/** events/bus.go: the bus object, as the calls change it one at a time under its lock. */
module Buses {
  import opened Base
  import BusProtocol

  type Event = BusProtocol.Event

  class Subscriber {
    const name: string
    const cap: nat
    const all: bool
    const filter: set<nat>
    var buffer: seq<Event>
    var closed: bool
    var dropped: nat
    /** The consumer's side of the channel: what it has taken out, and how many of its receives are blocked. */
    var received: seq<Event>
    var waiting: nat

    constructor (name: string, cap: nat, all: bool, filter: set<nat>)
      ensures this.name == name && this.cap == cap && this.all == all && this.filter == filter
      ensures buffer == [] && !closed && dropped == 0 && received == [] && waiting == 0
    {
      this.name, this.cap, this.all, this.filter := name, cap, all, filter;
      buffer, closed, dropped, received, waiting := [], false, 0, [], 0;
    }

    /** A consumer blocks only on an empty channel that is open. */
    predicate Channel()
      reads this
    {
      |buffer| <= cap && (waiting > 0 ==> buffer == [] && !closed)
    }

    predicate Wants(kind: nat) {
      all || (kind < BusProtocol.MAX_TYPE && kind in filter)
    }

    /** A non-blocking send; sending on a closed channel would panic. A blocked receive takes the event. */
    method TrySend(e: Event) returns (sent: bool)
      requires !closed && Channel()
      modifies this`buffer, this`received, this`waiting
      ensures Channel()
      ensures sent == (old(waiting) > 0 || |old(buffer)| < cap)
      ensures received == if old(waiting) > 0 then old(received) + [e] else old(received)
      ensures buffer == if sent && old(waiting) == 0 then old(buffer) + [e] else old(buffer)
      ensures waiting == if old(waiting) > 0 then old(waiting) - 1 else 0
    {
      sent := waiting > 0 || |buffer| < cap;
      if waiting > 0 {
        received := received + [e];
        waiting := waiting - 1;
      } else if sent {
        buffer := buffer + [e];
      }
    }

    /** A receive: it takes the oldest buffered event, or blocks on an open empty channel. */
    method Receive()
      requires Channel()
      modifies this`buffer, this`received, this`waiting
      ensures Channel() && received + buffer == old(received + buffer)
      ensures if old(buffer) != [] then received == old(received) + [old(buffer)[0]] && waiting == old(waiting)
              else received == old(received) && waiting == old(waiting) + if closed then 0 else 1
    {
      if buffer != [] {
        received, buffer := received + [buffer[0]], buffer[1..];
      } else if !closed {
        waiting := waiting + 1;
      }
    }

    /** Closing a closed channel would panic. Blocked receives return. */
    method CloseChannel()
      requires !closed && Channel()
      modifies this`closed, this`waiting
      ensures closed && Channel()
    {
      closed, waiting := true, 0;
    }
  }

  /** What the channel of a subscriber holds and has dropped is as before. */
  twostate predicate Kept(s: Subscriber)
    reads s
  {
    s.buffer == old(s.buffer) && s.received == old(s.received) && s.dropped == old(s.dropped)
  }

  /** What a publish does to one subscriber: a blocked receive takes the event, or it is appended to the
      buffer, or a drop is counted when the buffer is full. */
  twostate predicate Delivered(s: Subscriber, e: Event)
    reads s
  {
    if !s.Wants(e.kind) then Kept(s)
    else if old(s.waiting) > 0 then
      s.received == old(s.received) + [e] && s.buffer == old(s.buffer) && s.dropped == old(s.dropped)
    else if |old(s.buffer)| < s.cap then
      s.received == old(s.received) && s.buffer == old(s.buffer) + [e] && s.dropped == old(s.dropped)
    else s.received == old(s.received) && s.buffer == old(s.buffer) && s.dropped == old(s.dropped) + 1
  }

  class MemBus {
    var subs: map<string, Subscriber>
    var order: seq<Subscriber>
    var closed: bool

    /** Map and list hold the same subscribers, once each, with open channels; a closed bus has none. */
    ghost predicate Valid()
      reads this, order
    {
      && Registered(subs, order)
      && (closed ==> order == [])
    }

    constructor ()
      ensures Valid() && order == [] && subs == map[] && !closed
    {
      subs, order, closed := map[], [], false;
    }

    method Publish(e: Event)
      requires Valid()
      modifies order
      ensures Valid()
      ensures forall s :: s in order ==> Delivered(s, e)
    {
      if closed {
        return;
      }
      for i := 0 to |order|
        invariant forall j :: 0 <= j < |order| ==> !order[j].closed && order[j].Channel()
        invariant forall j :: 0 <= j < i ==> Delivered(order[j], e)
        invariant forall j :: i <= j < |order| ==> unchanged(order[j])
      {
        var s := order[i];
        if s.Wants(e.kind) {
          var sent := s.TrySend(e);
          if !sent {
            s.dropped := s.dropped + 1;
          }
        }
      }
    }

    method Subscribe(name: string, buf: int, types: seq<nat>) returns (s: Subscriber)
      requires Valid()
      modifies this, order
      ensures Valid() && closed == old(closed)
      ensures fresh(s) && s.name == name && s.cap == Max(buf, 0) && s.buffer == [] && s.received == [] && s.dropped == 0
      ensures forall t: nat :: s.Wants(t) <==> types == [] || (t < BusProtocol.MAX_TYPE && t in types)
      ensures s.closed == closed
      ensures if closed then subs == old(subs) && order == old(order)
              else subs == old(subs)[name := s] && order == WithoutNamed(old(order), name) + [s]
      ensures forall t :: t in old(order) ==>
                t.closed == (t.name == name && !closed) && Kept(t)
    {
      hide WithoutNamed, NoDup;
      var b := if buf < 0 then 0 else buf;
      s := new Subscriber(name, b, types == [], set t | t in types && t < BusProtocol.MAX_TYPE);
      if closed {
        s.CloseChannel();
        return;
      }
      RemoveLocked(name);
      AddLocked(s);
    }

    method AddLocked(s: Subscriber)
      requires Valid() && !closed && !s.closed && s.Channel() && s.name !in subs
      modifies this`subs, this`order
      ensures Valid() && subs == old(subs)[s.name := s] && order == old(order) + [s]
    {
      assert s !in order;
      subs := subs[s.name := s];
      order := order + [s];
    }

    method Unsubscribe(name: string)
      requires Valid()
      modifies this, order
      ensures Valid() && closed == old(closed)
      ensures subs == old(subs) - {name} && order == WithoutNamed(old(order), name)
      ensures forall t :: t in old(order) ==>
                t.closed == (t.name == name) && Kept(t)
    {
      RemoveLocked(name);
    }

    method DroppedCount(name: string) returns (count: nat)
      requires Valid()
      ensures count == if name in subs then subs[name].dropped else 0
    {
      if name in subs {
        return subs[name].dropped;
      }
      return 0;
    }

    method Close()
      requires Valid()
      modifies this, order
      ensures Valid() && closed && subs == map[] && order == []
      ensures forall t :: t in old(order) ==> t.closed && Kept(t)
    {
      if closed {
        return;
      }
      closed := true;
      for i := 0 to |order|
        invariant order == old(order) && closed
        invariant forall j :: 0 <= j < |order| ==>
                    order[j].closed == (j < i) && order[j].Channel() && Kept(order[j])
      {
        order[i].CloseChannel();
      }
      subs := map[];
      order := [];
    }

    /** The subscribers but for the one of the given name. */
    static function WithoutNamed(order: seq<Subscriber>, name: string): seq<Subscriber> {
      if order == [] then []
      else if order[0].name == name then order[1..]
      else [order[0]] + WithoutNamed(order[1..], name)
    }

    method RemoveLocked(name: string)
      requires Valid()
      modifies this`subs, this`order, order
      ensures Valid() && closed == old(closed)
      ensures subs == old(subs) - {name} && order == WithoutNamed(old(order), name)
      ensures forall t :: t in old(order) ==>
                t.closed == (t.name == name) && Kept(t)
    {
      hide WithoutNamed, NoDup;
      if name !in subs {
        NobodyNamed(order, name);
        return;
      }
      var s := subs[name];
      var i := Position(s);
      assert forall t :: t in order && t.name == name ==> t == s;
      Detach(i);
      s.CloseChannel();
    }

    /** A map and a list of the same open subscribers, once each. */
    static ghost predicate Registered(subs: map<string, Subscriber>, order: seq<Subscriber>)
      reads order
    {
      && NoDup(order)
      && (forall i :: 0 <= i < |order| ==>
            !order[i].closed && order[i].Channel() && order[i].name in subs && subs[order[i].name] == order[i])
      && (forall name :: name in subs ==> subs[name] in order && subs[name].name == name)
    }

    static lemma CutStaysRegistered(subs: map<string, Subscriber>, order: seq<Subscriber>, i: nat)
      requires Registered(subs, order) && i < |order|
      ensures Registered(subs - {order[i].name}, CutAt(order, i)) && order[i] !in CutAt(order, i)
      ensures forall s :: s in CutAt(order, i) ==> s in order
    {
      hide CutAt, NoDup;
      CutProps(order, i);
    }

    static lemma CutTakesOutName(subs: map<string, Subscriber>, order: seq<Subscriber>, i: nat)
      requires Registered(subs, order) && i < |order|
      ensures CutAt(order, i) == WithoutNamed(order, order[i].name)
    {
      assert forall j :: 0 <= j < i ==> order[j] != order[i];
      hide CutAt, WithoutNamed, NoDup;
      CutNamed(order, i, order[i].name);
    }

    /** Takes the subscriber at a position out of the map and the list. */
    method Detach(i: nat)
      requires Valid() && i < |order|
      modifies this`subs, this`order
      ensures Valid() && old(order[i]) !in order
      ensures subs == old(subs) - {old(order[i]).name} && order == WithoutNamed(old(order), old(order[i]).name)
      ensures forall s :: s in order ==> s in old(order)
    {
      hide CutAt, WithoutNamed, Registered, NoDup;
      CutStaysRegistered(subs, order, i);
      CutTakesOutName(subs, order, i);
      subs := subs - {order[i].name};
      order := CutAt(order, i);
    }

    /** The list without its element at a position, as append of the two slices around it builds it. */
    static function CutAt(order: seq<Subscriber>, i: nat): seq<Subscriber>
      requires i < |order|
    {
      order[..i] + order[i + 1..]
    }

    /** The walk over the list to the subscriber to cut out. */
    method Position(s: Subscriber) returns (i: nat)
      requires Valid() && s in order
      ensures i < |order| && order[i] == s && forall j :: 0 <= j < i ==> order[j].name != s.name
    {
      i := 0;
      while order[i] != s
        invariant i < |order| && s !in order[..i]
        decreases |order| - i
      {
        i := i + 1;
      }
    }

    static lemma CutProps(order: seq<Subscriber>, i: nat)
      requires NoDup(order) && i < |order|
      ensures NoDup(CutAt(order, i))
      ensures forall j :: 0 <= j < |CutAt(order, i)| ==> CutAt(order, i)[j] in order && CutAt(order, i)[j] != order[i]
      ensures forall s :: s in order && s != order[i] ==> s in CutAt(order, i)
    {
      forall s | s in order && s != order[i]
        ensures s in CutAt(order, i)
      {
        var j :| 0 <= j < |order| && order[j] == s;
        assert CutAt(order, i)[if j < i then j else j - 1] == s;
      }
    }

    static lemma {:induction false} NobodyNamed(order: seq<Subscriber>, name: string)
      requires forall i :: 0 <= i < |order| ==> order[i].name != name
      ensures WithoutNamed(order, name) == order
    {
      if order != [] {
        NobodyNamed(order[1..], name);
      }
    }

    static lemma {:induction false} CutNamed(order: seq<Subscriber>, i: nat, name: string)
      requires i < |order| && order[i].name == name
      requires forall j :: 0 <= j < i ==> order[j].name != name
      ensures WithoutNamed(order, name) == CutAt(order, i)
    {
      if i > 0 {
        CutNamed(order[1..], i - 1, name);
      }
    }
  }
}
