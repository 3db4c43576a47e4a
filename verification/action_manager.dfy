/** The action queue of src/core/ActionManager.js: actions are stamped with
    the time and a sequence number as they are queued, and handed to the
    handler registered for their type when the queue is drained (or at once,
    for an immediate action). A handler is an opaque identity; whether its
    call throws is an input of the step that calls it. */
module ActionManagement {
  import opened Common
  import EventBusModel

  type Handler = nat

  /** What a caller queues: the action type, the immediate flag and the
      remaining fields. */
  datatype Request = Request(actionType: string, immediate: bool, fields: EventBusModel.EventData)

  /** A queued action: the request with its `timestamp` and `sequence`. */
  datatype Action = Action(request: Request, timestamp: int, sequence: nat)

  /** What processing one action did: nothing (no handler), or a call of
      the handler that returned or threw. */
  datatype Outcome = Unhandled | Processed(handler: Handler) | Failed(handler: Handler)

  /** The event the outcome emits on the bus, if any. */
  function EmittedEvent(o: Outcome): (e: Option<string>)
    ensures o.Unhandled? <==> e.None?
    ensures o.Processed? ==> e == Some("action:processed")
    ensures o.Failed? ==> e == Some("action:error")
  {
    match o
    case Unhandled => None
    case Processed(_) => Some("action:processed")
    case Failed(_) => Some("action:error")
  }

  class ActionManager {
    var pendingActions: seq<Action>
    var actionHandlers: map<string, Handler>

    /** Each pending action carries its position in the queue as sequence. */
    ghost predicate Numbered()
      reads this
    {
      forall k :: 0 <= k < |pendingActions| ==> pendingActions[k].sequence == k
    }

    constructor ()
      ensures pendingActions == [] && actionHandlers == map[] && Numbered()
    {
      pendingActions := [];
      actionHandlers := map[];
    }

    /** registerHandler: the handler for `actionType` is replaced (or
        added); other types keep theirs. */
    method RegisterHandler(actionType: string, handler: Handler)
      modifies this`actionHandlers
      ensures actionType in actionHandlers && actionHandlers[actionType] == handler
      ensures forall t :: t != actionType ==>
        (t in actionHandlers <==> t in old(actionHandlers)) &&
        (t in actionHandlers ==> actionHandlers[t] == old(actionHandlers[t]))
    {
      actionHandlers := actionHandlers[actionType := handler];
    }

    /** processAction: an action whose type has a handler calls that
        handler, and emits `action:processed` when it returns and
        `action:error` when it throws; an action without a handler calls
        nothing. */
    function ProcessAction(action: Action, throws: bool): (o: Outcome)
      reads this
      ensures o.Unhandled? <==> action.request.actionType !in actionHandlers
      ensures !o.Unhandled? ==> o.handler == actionHandlers[action.request.actionType]
      ensures !o.Unhandled? ==> (o.Failed? <==> throws)
    {
      var t := action.request.actionType;
      if t in actionHandlers then
        (if throws then Failed(actionHandlers[t]) else Processed(actionHandlers[t]))
      else Unhandled
    }

    /** queueAction: one action is appended, stamped with `now` and with
        the queue length before the append as its sequence. An immediate
        action is processed once at once and stays in the queue. */
    method QueueAction(request: Request, now: int, throws: bool) returns (queued: Action, outcome: Option<Outcome>)
      modifies this`pendingActions
      ensures queued == Action(request, now, |old(pendingActions)|)
      ensures pendingActions == old(pendingActions) + [queued]
      ensures old(Numbered()) ==> Numbered()
      ensures outcome.Some? <==> request.immediate
      ensures outcome.Some? ==> outcome.value == ProcessAction(queued, throws)
    {
      queued := Action(request, now, |pendingActions|);
      pendingActions := pendingActions + [queued];
      outcome := None;
      if request.immediate {
        outcome := Some(ProcessAction(queued, throws));
      }
    }

    /** processActions: the queue is taken and emptied, then each action
        taken is processed in queue order; one whose handler throws does
        not stop the later ones. `throws[k]` says whether the k-th call
        throws. */
    method ProcessActions(throws: seq<bool>) returns (outcomes: seq<Outcome>)
      requires |throws| == |pendingActions|
      modifies this`pendingActions
      ensures pendingActions == [] && Numbered()
      ensures |outcomes| == |old(pendingActions)|
      ensures forall k :: 0 <= k < |outcomes| ==> outcomes[k] == ProcessAction(old(pendingActions)[k], throws[k])
    {
      var actions := pendingActions;
      pendingActions := [];
      outcomes := [];
      var i := 0;
      while i < |actions|
        invariant 0 <= i <= |actions|
        invariant |outcomes| == i
        invariant forall k :: 0 <= k < i ==> outcomes[k] == ProcessAction(actions[k], throws[k])
      {
        outcomes := outcomes + [ProcessAction(actions[i], throws[i])];
        i := i + 1;
      }
    }
  }
}
