/**
 * The fan-out event bus (events/bus.py), run one call at a time.
 *
 * The registry of subscriber queues is a sequence of subscriptions in
 * registration order. A subscription's `id` stands for the identity of its
 * `asyncio.Queue`; the queue itself is the sequence of events waiting to be
 * taken, oldest first.
 */
module Bus {
  import opened Optional
  import opened Models

  datatype Subscription = Subscription(id: nat, queue: seq<StatusEvent>)

  /** Every subscription in `subs` has a different id. */
  ghost predicate DistinctIds(subs: seq<Subscription>) {
    forall j, k :: 0 <= j < k < |subs| ==> subs[j].id != subs[k].id
  }

  /** The registry after `e` is put at the back of every queue, in registration order. */
  function Broadcast(subs: seq<Subscription>, e: StatusEvent): (r: seq<Subscription>)
    ensures |r| == |subs|
    ensures forall k :: 0 <= k < |subs| ==> r[k].id == subs[k].id && r[k].queue == subs[k].queue + [e]
  {
    if subs == [] then []
    else [Subscription(subs[0].id, subs[0].queue + [e])] + Broadcast(subs[1..], e)
  }

  /** The registry after each of `events` was broadcast, in order. */
  function PublishAll(subs: seq<Subscription>, events: seq<StatusEvent>): (r: seq<Subscription>)
    ensures |r| == |subs|
  {
    if events == [] then subs
    else Broadcast(PublishAll(subs, events[..|events| - 1]), events[|events| - 1])
  }

  /**
   * FIFO fan-out: after any run of publishes every subscriber that was
   * registered throughout holds all of them, exactly once each, after what
   * it already held, in publish order; nobody joins or leaves.
   */
  lemma {:induction false} PublishAllDelivers(subs: seq<Subscription>, events: seq<StatusEvent>)
    ensures |PublishAll(subs, events)| == |subs|
    ensures forall k :: 0 <= k < |subs| ==>
      PublishAll(subs, events)[k].id == subs[k].id &&
      PublishAll(subs, events)[k].queue == subs[k].queue + events
  {
    if events != [] {
      var init := events[..|events| - 1];
      PublishAllDelivers(subs, init);
      assert init + [events[|events| - 1]] == events;
    }
  }

  /** Publishing two runs of events one after the other is publishing their concatenation. */
  lemma {:induction false} PublishAllAppend(subs: seq<Subscription>, first: seq<StatusEvent>, second: seq<StatusEvent>)
    ensures PublishAll(subs, first + second) == PublishAll(PublishAll(subs, first), second)
    decreases |second|
  {
    if second != [] {
      var init := second[..|second| - 1];
      PublishAllAppend(subs, first, init);
      assert (first + second)[..|first + second| - 1] == first + init;
    } else {
      assert first + second == first;
    }
  }

  /**
   * A subscriber registered with an empty queue ends up holding exactly the
   * events published after it joined, in publish order.
   */
  lemma SubscriberSeesLaterEvents(subs: seq<Subscription>, id: nat, events: seq<StatusEvent>)
    ensures PublishAll(subs + [Subscription(id, [])], events)[|subs|] == Subscription(id, events)
  {
    PublishAllDelivers(subs + [Subscription(id, [])], events);
  }

  /** The position of the subscription with id `id`, the first one if several. */
  function Find(subs: seq<Subscription>, id: nat): (r: Option<nat>)
    ensures r.None? <==> forall k :: 0 <= k < |subs| ==> subs[k].id != id
    ensures r.Some? ==>
      && r.value < |subs| && subs[r.value].id == id
      && forall k :: 0 <= k < r.value ==> subs[k].id != id
  {
    if subs == [] then None
    else if subs[0].id == id then Some(0)
    else
      match Find(subs[1..], id)
      case None => None
      case Some(k) => Some(k + 1)
  }

  /**
   * `list.remove(queue)`: the registry without the first subscription whose
   * id is `id`; everything else keeps its place and contents.
   */
  function Remove(subs: seq<Subscription>, id: nat): seq<Subscription> {
    if subs == [] then []
    else if subs[0].id == id then subs[1..]
    else [subs[0]] + Remove(subs[1..], id)
  }

  /**
   * `list.remove` deletes the first subscription with that id and keeps the
   * rest in order; without one it changes nothing.
   */
  lemma {:induction false} RemoveDeletesFirst(subs: seq<Subscription>, id: nat)
    ensures Find(subs, id).None? ==> Remove(subs, id) == subs
    ensures Find(subs, id).Some? ==>
      var k := Find(subs, id).value;
      Remove(subs, id) == subs[..k] + subs[k + 1..]
  {
    if subs != [] && subs[0].id != id {
      RemoveDeletesFirst(subs[1..], id);
      match Find(subs[1..], id)
      case None =>
      case Some(k) =>
        assert Find(subs, id) == Some(k + 1);
        ConsDrop(subs, k);
    }
  }

  /** Dropping position `k + 1` of a registry is keeping its head and dropping position `k` of its tail. */
  lemma ConsDrop(subs: seq<Subscription>, k: nat)
    requires k + 1 < |subs|
    ensures [subs[0]] + (subs[1..][..k] + subs[1..][k + 1..]) == subs[..k + 1] + subs[k + 2..]
  {
    assert subs[1..][..k] == subs[1..k + 1];
    assert subs[1..][k + 1..] == subs[k + 2..];
    assert [subs[0]] + subs[1..k + 1] == subs[..k + 1];
  }

  /** The registry without position `k`, read position by position. */
  lemma DropAt(subs: seq<Subscription>, k: nat, r: seq<Subscription>)
    requires k < |subs| && r == subs[..k] + subs[k + 1..]
    ensures |r| == |subs| - 1
    ensures forall i :: 0 <= i < k ==> r[i] == subs[i]
    ensures forall i :: k <= i < |r| ==> r[i] == subs[i + 1]
  {
  }

  /**
   * Closing a subscription among distinct ids removes exactly that one: the
   * registry shrinks by one and its ids stay distinct.
   */
  lemma RemoveOne(subs: seq<Subscription>, id: nat)
    requires DistinctIds(subs)
    requires Find(subs, id).Some?
    ensures |Remove(subs, id)| == |subs| - 1
    ensures DistinctIds(Remove(subs, id))
  {
    var k := Find(subs, id).value;
    var r := Remove(subs, id);
    RemoveDeletesFirst(subs, id);
    DropAt(subs, k, r);
    forall i, j | 0 <= i < j < |r|
      ensures r[i].id != r[j].id
    {
      var i' := if i < k then i else i + 1;
      var j' := if j < k then j else j + 1;
      assert r[i] == subs[i'];
      assert r[j] == subs[j'];
      assert i' < j';
    }
  }

  /**
   * Closing a subscription among distinct ids keeps every other subscriber
   * with its queue untouched, and adds nothing.
   */
  lemma RemoveKeepsOthers(subs: seq<Subscription>, id: nat)
    requires DistinctIds(subs)
    requires Find(subs, id).Some?
    ensures forall s :: s in subs && s.id != id ==> s in Remove(subs, id)
    ensures forall s :: s in Remove(subs, id) ==> s in subs && s.id != id
  {
    var k := Find(subs, id).value;
    var r := Remove(subs, id);
    RemoveDeletesFirst(subs, id);
    DropAt(subs, k, r);
    forall s | s in subs && s.id != id
      ensures s in r
    {
      var m :| 0 <= m < |subs| && subs[m] == s;
      if m < k {
        assert r[m] == s;
      } else {
        assert m != k;
        assert r[m - 1] == s;
      }
    }
    forall s | s in r
      ensures s in subs && s.id != id
    {
      var j :| 0 <= j < |r| && r[j] == s;
      var j' := if j < k then j else j + 1;
      assert s == subs[j'];
      assert j' != k;
    }
  }

  class EventBus {
    /** The subscriber queues, in registration order. */
    var subscribers: seq<Subscription>
    /** The id the next subscription receives; models the fresh identity of a new queue. */
    var nextId: nat

    ghost predicate Valid()
      reads this
    {
      && DistinctIds(subscribers)
      && forall k :: 0 <= k < |subscribers| ==> subscribers[k].id < nextId
    }

    constructor ()
      ensures Valid()
      ensures subscribers == []
    {
      subscribers := [];
      nextId := 0;
    }

    /** Puts `e` at the back of every registered queue; with no subscriber the event is dropped. */
    method Publish(e: StatusEvent)
      requires Valid()
      modifies this
      ensures Valid()
      ensures subscribers == Broadcast(old(subscribers), e)
      ensures nextId == old(nextId)
    {
      var i := 0;
      while i < |subscribers|
        invariant 0 <= i <= |subscribers| == |old(subscribers)|
        invariant nextId == old(nextId)
        invariant forall k :: 0 <= k < i ==>
          subscribers[k] == Subscription(old(subscribers)[k].id, old(subscribers)[k].queue + [e])
        invariant forall k :: i <= k < |subscribers| ==> subscribers[k] == old(subscribers)[k]
      {
        var sub := subscribers[i];
        subscribers := subscribers[i := Subscription(sub.id, sub.queue + [e])];
        i := i + 1;
      }
      assert forall k :: 0 <= k < |subscribers| ==> subscribers[k] == Broadcast(old(subscribers), e)[k];
    }

    /** Registers a new, empty queue at the end of the registry and returns its id. */
    method Subscribe() returns (id: nat)
      requires Valid()
      modifies this
      ensures Valid()
      ensures subscribers == old(subscribers) + [Subscription(id, [])]
      ensures Find(old(subscribers), id).None?
    {
      id := nextId;
      subscribers := subscribers + [Subscription(id, [])];
      nextId := nextId + 1;
    }

    /**
     * `queue.get()` for subscription `id`: takes the oldest waiting event.
     * When the queue is empty the source waits for the next publish; here
     * the call returns None and changes nothing.
     */
    method Receive(id: nat) returns (e: Option<StatusEvent>)
      requires Valid()
      requires Find(subscribers, id).Some?
      modifies this
      ensures Valid()
      ensures nextId == old(nextId)
      ensures var k := Find(old(subscribers), id).value;
        if old(subscribers)[k].queue == [] then
          e.None? && subscribers == old(subscribers)
        else
          && e == Some(old(subscribers)[k].queue[0])
          && subscribers == old(subscribers)[k := Subscription(id, old(subscribers)[k].queue[1..])]
    {
      var k := Find(subscribers, id).value;
      var q := subscribers[k].queue;
      if q == [] {
        e := None;
      } else {
        e := Some(q[0]);
        subscribers := subscribers[k := Subscription(id, q[1..])];
      }
    }

    /** The `finally` of a subscription: its queue leaves the registry. */
    method Close(id: nat)
      requires Valid()
      requires Find(subscribers, id).Some?
      modifies this
      ensures Valid()
      ensures subscribers == Remove(old(subscribers), id)
      ensures |subscribers| == |old(subscribers)| - 1
    {
      RemoveOne(subscribers, id);
      RemoveKeepsOthers(subscribers, id);
      subscribers := Remove(subscribers, id);
      forall k | 0 <= k < |subscribers|
        ensures subscribers[k].id < nextId
      {
        assert subscribers[k] in old(subscribers);
      }
    }

    /** The number of active subscriptions. */
    method Size() returns (n: nat)
      ensures n == |subscribers|
    {
      n := |subscribers|;
    }
  }
}
