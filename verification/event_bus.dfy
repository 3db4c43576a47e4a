/** The global event bus of src/core/EventBus.js: a table from event name to
    the callbacks subscribed to it, in subscription order. Emitting an event
    hands every subscribed callback the event data stamped with the time. */
module EventBusModel {
  import opened Common

  /** A subscribed callback. Callbacks are compared by identity
      (`cb !== callback`), so a callback is modelled by an identity. */
  type Callback = nat

  /** A value carried in event data: a number, a string, or a reference to
      an object, identified by an opaque number. */
  datatype Value = Num(n: int) | Text(s: string) | Ref(id: nat)

  type EventData = map<string, Value>

  /** The data an emit delivers: `{...data, timestamp: now}`. The stamp wins
      over a `timestamp` field already present in `data`. */
  function Stamped(data: EventData, now: int): (r: EventData)
    ensures r.Keys == data.Keys + {"timestamp"}
    ensures r["timestamp"] == Num(now)
    ensures forall k :: k in data && k != "timestamp" ==> r[k] == data[k]
  {
    data["timestamp" := Num(now)]
  }

  /** One call of a callback during an emit, with the data it receives. */
  datatype Delivery = Delivery(callback: Callback, data: EventData)

  /** Subscribing a new callback and calling the unsubscribe function `on`
      returned gives back the list as it was before. */
  lemma SubscribeThenUnsubscribe(cbs: seq<Callback>, callback: Callback)
    requires callback !in cbs
    ensures Without(cbs + [callback], callback) == cbs
  {
    WithoutAppend(cbs, [callback], callback);
    WithoutAbsent(cbs, callback);
    assert Without([callback], callback) == [];
  }

  class EventBus {
    var listeners: map<string, seq<Callback>>

    constructor ()
      ensures listeners == map[]
    {
      listeners := map[];
    }

    /** The callbacks subscribed to `event`; none when it has no list. */
    function ListenersOf(event: string): seq<Callback>
      reads this
    {
      if event in listeners then listeners[event] else []
    }

    /** on: `callback` is appended to the event's list, which is created
        when absent; the lists of other events stay as they were. */
    method On(event: string, callback: Callback)
      modifies this
      ensures event in listeners && listeners[event] == old(ListenersOf(event)) + [callback]
      ensures forall e :: e != event ==> ListenersOf(e) == old(ListenersOf(e))
      ensures listeners.Keys == old(listeners.Keys) + {event}
    {
      if event !in listeners {
        listeners := listeners[event := []];
      }
      listeners := listeners[event := listeners[event] + [callback]];
    }

    /** The unsubscribe function `on` returns: every occurrence of
        `callback` leaves the event's list, whose other callbacks keep their
        order; other events are untouched. It exists only for an event `on`
        has given a list, and lists are never removed. */
    method Unsubscribe(event: string, callback: Callback)
      requires event in listeners
      modifies this
      ensures listeners == old(listeners)[event := Without(old(listeners[event]), callback)]
      ensures callback !in ListenersOf(event)
      ensures forall cb :: cb != callback ==> (cb in ListenersOf(event) <==> cb in old(ListenersOf(event)))
    {
      listeners := listeners[event := Without(listeners[event], callback)];
    }

    /** emit: each callback subscribed to `event` is called once, in
        subscription order, with the data stamped with `now`; an event
        without subscribers calls nothing. The table itself is unchanged. */
    method Emit(event: string, data: EventData, now: int) returns (calls: seq<Delivery>)
      ensures |calls| == |ListenersOf(event)|
      ensures forall k :: 0 <= k < |calls| ==>
        calls[k].callback == ListenersOf(event)[k] && calls[k].data == Stamped(data, now)
    {
      var eventData := Stamped(data, now);
      calls := [];
      if event in listeners {
        var cbs := listeners[event];
        var i := 0;
        while i < |cbs|
          invariant 0 <= i <= |cbs|
          invariant |calls| == i
          invariant forall k :: 0 <= k < i ==> calls[k] == Delivery(cbs[k], eventData)
        {
          calls := calls + [Delivery(cbs[i], eventData)];
          i := i + 1;
        }
      }
    }
  }
}
