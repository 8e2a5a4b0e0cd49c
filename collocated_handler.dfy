/**
 * The collocated request handler as an object: the counter and the two
 * tables are fields updated in place, the hosting adapter is an object of
 * its own whose direct count the handler increments and decrements.  Each
 * method is one locked region (or a sequence of them) of the handler and is
 * proved to move the abstract `HandlerState` by the step of the same name in
 * CollocatedState, where the properties of those steps are proved.
 */
module CollocatedHandler {
  import opened Wrappers
  import opened Wire
  import opened CollocatedState

  /** The part of the object adapter the handler uses: its direct count. */
  class Adapter {
    var directCount: int
    var deactivated: bool

    constructor ()
      ensures directCount == 0 && !deactivated
    {
      directCount := 0;
      deactivated := false;
    }

    /** incDirectCount: refused (the adapter-deactivated error) once deactivation began. */
    method IncDirectCount() returns (ok: bool)
      modifies this
      ensures ok == !old(deactivated)
      ensures directCount == if ok then old(directCount) + 1 else old(directCount)
      ensures deactivated == old(deactivated)
    {
      ok := !deactivated;
      if ok {
        directCount := directCount + 1;
      }
    }

    method DecDirectCount()
      modifies this
      ensures directCount == old(directCount) - 1
      ensures deactivated == old(deactivated)
    {
      directCount := directCount - 1;
    }
  }

  /** The unit of work an invocation hands to the thread pool, or runs now. */
  datatype Work = Work(placement: Placement, call: CallId, requestId: int)

  class CollocatedRequestHandler {
    const adapter: Adapter
    /** The reference's invocation mode is two-way. */
    const response: bool
    /** The communicator has a dispatcher configured. */
    const dispatcher: bool
    const invocationTimeout: int
    /** The protocol trace level; tracing is on from level 1. */
    const traceProtocol: int

    var requestId: int
    var sendAsyncRequests: map<CallId, int>
    var asyncRequests: map<int, CallId>

    function State(): (r: HandlerState)
      reads this, adapter
    {
      HandlerState(requestId, sendAsyncRequests, asyncRequests, adapter.directCount, adapter.deactivated)
    }

    ghost predicate Valid()
      reads this, adapter
    {
      Inv(State(), response)
    }

    constructor (adapter: Adapter, twoway: bool, hasDispatcher: bool, invocationTimeout: int, traceProtocol: int)
      ensures this.adapter == adapter && response == twoway && dispatcher == hasDispatcher
      ensures this.invocationTimeout == invocationTimeout && this.traceProtocol == traceProtocol
      ensures Valid()
      ensures State() == HandlerState(0, map[], map[], adapter.directCount, adapter.deactivated)
    {
      this.adapter := adapter;
      response := twoway;
      dispatcher := hasDispatcher;
      this.invocationTimeout := invocationTimeout;
      this.traceProtocol := traceProtocol;
      requestId := 0;
      sendAsyncRequests := map[];
      asyncRequests := map[];
    }

    /** update: the handler to use once `previousHandler` is replaced by `newHandler`. */
    static function Update(handler: CollocatedRequestHandler, previousHandler: CollocatedRequestHandler,
                           newHandler: CollocatedRequestHandler?): (r: CollocatedRequestHandler?)
      ensures previousHandler == handler ==> r == newHandler
      ensures previousHandler != handler ==> r == handler
    {
      if previousHandler == handler then newHandler else handler
    }

    /** fillInValue: rewrite the int at `pos` of the message buffer in place. */
    method FillInValue(os: array<byte>, pos: nat, value: int)
      requires pos + 4 <= os.Length && IsInt32(value)
      modifies os
      ensures os[..] == RewriteInt(old(os[..]), pos, value)
    {
      var bytes := EncodeInt32(value);
      os[pos] := bytes[0];
      os[pos + 1] := bytes[1];
      os[pos + 2] := bytes[2];
      os[pos + 3] := bytes[3];
      assert os[..] == old(os[..])[..pos] + bytes + old(os[..])[pos + 4..];
    }

    /** AsyncRequestCanceled: complete the call with the cancellation error, if it is still pending. */
    method AsyncRequestCanceled(c: CallId, isOutgoingAsync: bool, exceptionAccepted: bool)
      returns (completion: Completion)
      requires Valid()
      modifies this, adapter
      ensures Valid()
      ensures Canceled(old(State()), c, isOutgoingAsync, State())
      ensures completion != NoCallback ==> completion == Callback(true) && exceptionAccepted
      ensures completion == NoCallback <==>
                !exceptionAccepted
                || (c !in old(sendAsyncRequests) && (!isOutgoingAsync || NotAwaited(old(State()), c)))
    {
      completion := NoCallback;
      if c in sendAsyncRequests {
        var id := sendAsyncRequests[c];
        if id > 0 {
          asyncRequests := asyncRequests - {id};
        }
        sendAsyncRequests := sendAsyncRequests - {c};
        if exceptionAccepted {
          completion := Callback(true);
        }
        adapter.DecDirectCount();
        return;
      }
      if isOutgoingAsync {
        var keys: set<int> := asyncRequests.Keys;
        while keys != {}
          invariant keys <= asyncRequests.Keys
          invariant State() == old(State())
          invariant forall id | id in asyncRequests && id !in keys :: asyncRequests[id] != c
          decreases keys
        {
          var id := Pick(keys);
          if asyncRequests[id] == c {
            asyncRequests := asyncRequests - {id};
            if exceptionAccepted {
              completion := Callback(true);
            }
            return;
          }
          keys := keys - {id};
        }
      }
    }

    /** SendResponse: complete the call awaiting `id`, if any, and release one reference. */
    method SendResponse(id: int, os: array<byte>, amd: bool, responseAccepted: bool)
      returns (completion: Completion)
      requires Valid()
      requires ReplyHeaderLength <= os.Length && IsInt32(os.Length)
      modifies this, adapter, os
      ensures Valid()
      ensures State() == Respond(old(State()), id)
      ensures completion == if Awaited(old(State()), id) && responseAccepted then Callback(amd) else NoCallback
      ensures os[..] == if traceProtocol >= 1 then RewriteInt(old(os[..]), SizeOffset, os.Length) else old(os[..])
    {
      if traceProtocol >= 1 {
        FillInValue(os, SizeOffset, os.Length);
      }
      completion := NoCallback;
      if id in asyncRequests {
        if responseAccepted {
          completion := Callback(amd);
        }
        asyncRequests := asyncRequests - {id};
      }
      adapter.DecDirectCount();
    }

    method SendNoResponse()
      requires Valid()
      modifies adapter
      ensures Valid()
      ensures State() == Release(old(State()))
    {
      adapter.DecDirectCount();
    }

    /** handleException: route an error to the call awaiting `id`; one-way errors are dropped. */
    method HandleException(id: int, amd: bool, exceptionAccepted: bool) returns (completion: Completion)
      requires Valid()
      modifies this
      ensures Valid()
      ensures State() == Fail(old(State()), id)
      ensures completion == if Awaited(old(State()), id) && exceptionAccepted then Callback(amd) else NoCallback
    {
      completion := NoCallback;
      if id == 0 {
        return;
      }
      if id in asyncRequests {
        if exceptionAccepted {
          completion := Callback(amd);
        }
        asyncRequests := asyncRequests - {id};
      }
    }

    method SystemException(id: int, amd: bool, exceptionAccepted: bool)
      returns (handled: bool, completion: Completion)
      requires Valid()
      modifies this, adapter
      ensures Valid()
      ensures State() == Release(Fail(old(State()), id))
      ensures handled
      ensures completion == if Awaited(old(State()), id) && exceptionAccepted then Callback(amd) else NoCallback
    {
      completion := HandleException(id, amd, exceptionAccepted);
      adapter.DecDirectCount();
      handled := true;
    }

    method InvokeException(id: int, amd: bool, exceptionAccepted: bool) returns (completion: Completion)
      requires Valid()
      modifies this, adapter
      ensures Valid()
      ensures State() == Release(Fail(old(State()), id))
      ensures completion == if Awaited(old(State()), id) && exceptionAccepted then Callback(amd) else NoCallback
    {
      completion := HandleException(id, amd, exceptionAccepted);
      adapter.DecDirectCount();
    }

    /** sentAsync: confirm the call as sent if it is still registered. */
    method SentAsync(c: CallId, sentAccepted: bool) returns (proceed: bool, sentNotified: bool)
      requires Valid()
      modifies this
      ensures Valid()
      ensures proceed == SendPending(old(State()), c)
      ensures State() == AfterSent(old(State()), c)
      ensures sentNotified == (proceed && sentAccepted)
    {
      proceed := c in sendAsyncRequests;
      sentNotified := false;
      if !proceed {
        return;
      }
      sendAsyncRequests := sendAsyncRequests - {c};
      sentNotified := sentAccepted;
    }

    /** The header rewrite invokeAll does before tracing the request. */
    method PatchHeader(os: array<byte>, id: int)
      requires RequestHeaderLength <= os.Length && IsInt32(os.Length) && IsInt32(id)
      modifies os
      ensures os[..] == TracePatched(old(os[..]), id)
    {
      FillInValue(os, SizeOffset, os.Length);
      if id > 0 {
        FillInValue(os, HeaderSize, id);
      }
    }

    /**
     * The reply buffer once a dispatch has ended with `outcome`: only a reply
     * sent through sendResponse rewrites it, and only for the tracer.  A
     * dispatch the adapter did not let in (`admitted` false) leaves it alone.
     */
    function Answered(admitted: bool, outcome: DispatchOutcome, buf: seq<byte>): (r: seq<byte>)
      requires ReplyHeaderLength <= |buf| && IsInt32(|buf|)
    {
      if admitted && outcome.Replied? && traceProtocol >= 1 then RewriteInt(buf, SizeOffset, |buf|) else buf
    }

    /**
     * Incoming.invoke, seen from the handler: the servant dispatch answers
     * through one of the response-sink methods, or raises a local exception,
     * which invokeAll routes to InvokeException.  Reports whether it raised.
     */
    method Incoming(id: int, outcome: DispatchOutcome, reply: array<byte>, accepted: bool) returns (raised: bool)
      requires Valid()
      requires ReplyHeaderLength <= reply.Length && IsInt32(reply.Length)
      modifies this, adapter, reply
      ensures Valid()
      ensures raised == outcome.Raised?
      ensures reply[..] == Answered(true, outcome, old(reply[..]))
      ensures State() == match outcome
                         case Replied(_) => Respond(old(State()), id)
                         case NoReply => Release(old(State()))
                         case Failed(_) => Release(Fail(old(State()), id))
                         case Raised => Release(Fail(old(State()), id))
    {
      raised := false;
      match outcome {
        case Replied(amd) =>
          var _ := SendResponse(id, reply, amd, accepted);
        case NoReply =>
          SendNoResponse();
        case Failed(amd) =>
          var _, _ := SystemException(id, amd, accepted);
        case Raised =>
          var _ := InvokeException(id, false, accepted);
          raised := true;
      }
    }

    /**
     * invokeAll: patch the header for the tracer, then dispatch once with a
     * reference of its own and release the submission's reference at exit.
     * `reply` is the buffer the dispatch answers in. Returns where the
     * reconstructed incoming request starts reading.
     */
    method InvokeAll(os: array<byte>, id: int, outcome: DispatchOutcome, reply: array<byte>, accepted: bool)
      returns (readPos: nat)
      requires Valid()
      requires RequestHeaderLength <= os.Length && IsInt32(os.Length) && IsInt32(id)
      requires ReplyHeaderLength <= reply.Length && IsInt32(reply.Length) && reply != os
      modifies this, adapter, os, reply
      ensures Valid()
      ensures State() == InvokeAllState(old(State()), id, outcome)
      ensures os[..] == if traceProtocol >= 1 then TracePatched(old(os[..]), id) else old(os[..])
      ensures readPos == RequestHeaderLength
      ensures reply[..] == Answered(!old(adapter.deactivated), outcome, old(reply[..]))
    {
      if traceProtocol >= 1 {
        PatchHeader(os, id);
      }
      ghost var patched := os[..];
      readPos := RequestHeaderLength;
      var invokeNum := 1;
      while invokeNum > 0
        invariant 0 <= invokeNum <= 1
        invariant Valid()
        invariant invokeNum == 1 ==> State() == old(State())
        invariant os[..] == patched
        invariant invokeNum == 0 ==> State() == DispatchStep(old(State()), id, outcome)
        invariant reply[..] == if invokeNum == 1 then old(reply[..])
                               else Answered(!old(adapter.deactivated), outcome, old(reply[..]))
        decreases invokeNum
      {
        var stop := DispatchOnce(id, outcome, reply, accepted);
        if stop {
          break;
        }
        invokeNum := invokeNum - 1;
      }
      adapter.DecDirectCount();
    }

    /**
     * One pass of the loop of invokeAll: take a reference for the dispatch,
     * or route the adapter-deactivated error when that is refused, and then
     * dispatch.  Reports whether the loop stops early.
     */
    method DispatchOnce(id: int, outcome: DispatchOutcome, reply: array<byte>, accepted: bool) returns (stop: bool)
      requires Valid()
      requires ReplyHeaderLength <= reply.Length && IsInt32(reply.Length)
      modifies this, adapter, reply
      ensures Valid()
      ensures State() == DispatchStep(old(State()), id, outcome)
      ensures stop == (old(adapter.deactivated) || outcome.Raised?)
      ensures reply[..] == Answered(!old(adapter.deactivated), outcome, old(reply[..]))
    {
      var ok := adapter.IncDirectCount();
      if !ok {
        var _ := HandleException(id, false, accepted);
        return true;
      }
      stop := Incoming(id, outcome, reply, accepted);
    }

    /**
     * invokeAsyncRequest: take a direct count reference, register the call
     * (a fresh id for a two-way call, id 0 for a one-way one), undo the
     * reference if registration raises, then hand the unit of work to the
     * thread pool or the dispatcher, or run it on the calling thread.
     * Success is the queued status, with the unit of work handed over.
     */
    method InvokeAsyncRequest(c: CallId, synchronous: bool, canceled: bool, os: array<byte>,
                              sentAccepted: bool, outcome: DispatchOutcome, reply: array<byte>, accepted: bool)
      returns (status: Result<Work, HandlerError>)
      requires Valid()
      requires requestId < MaxInt32
      requires RequestHeaderLength <= os.Length && IsInt32(os.Length)
      requires ReplyHeaderLength <= reply.Length && IsInt32(reply.Length) && reply != os
      modifies this, adapter, os, reply
      ensures Valid()
      ensures var reg := Register(old(State()), c, response, canceled);
              && (status.Err? <==> reg.result.Err?)
              && (status.Err? ==> status.error == reg.result.error && State() == reg.after && os[..] == old(os[..]))
              && (status.Ok? ==> status.value == Work(Schedule(synchronous, response, invocationTimeout, dispatcher),
                                                      c, reg.result.value))
      ensures var reg := Register(old(State()), c, response, canceled);
              status.Ok? && status.value.placement != CallingThread ==>
                State() == reg.after && os[..] == old(os[..])
      ensures var reg := Register(old(State()), c, response, canceled);
              status.Ok? && status.value.placement == CallingThread ==>
                && State() == InvokeAllState(AfterSent(reg.after, c), reg.result.value, outcome)
                && os[..] == (if traceProtocol >= 1 then TracePatched(old(os[..]), reg.result.value) else old(os[..]))
                && reply[..] == Answered(!old(adapter.deactivated), outcome, old(reply[..]))
      ensures !(status.Ok? && status.value.placement == CallingThread) ==> reply[..] == old(reply[..])
    {
      var registered := RegisterCall(c, canceled);
      if registered.Err? {
        return Err(registered.error);
      }
      var id := registered.value;
      var placement;
      if !synchronous || !response || invocationTimeout > 0 {
        placement := ThreadPool;
      } else if dispatcher {
        placement := DispatcherThread;
      } else {
        placement := CallingThread;
      }
      var work := Work(placement, c, id);
      status := Ok(work);
      if placement == CallingThread {
        RunWork(work, os, sentAccepted, outcome, reply, accepted);
      }
    }

    /**
     * The registration of invokeAsyncRequest: take a direct count reference,
     * then under the lock enter the call (with a fresh id when two-way),
     * giving the reference back if that raises.
     */
    method RegisterCall(c: CallId, canceled: bool) returns (result: Result<int, HandlerError>)
      requires Valid()
      requires requestId < MaxInt32
      modifies this, adapter
      ensures Valid()
      ensures State() == Register(old(State()), c, response, canceled).after
      ensures result == Register(old(State()), c, response, canceled).result
      ensures result.Ok? ==> 0 <= result.value <= requestId && IsInt32(result.value)
    {
      RegisterKeepsInv(State(), c, response, canceled);
      var ok := adapter.IncDirectCount();
      if !ok {
        return Err(AdapterDeactivated);
      }
      var id := 0;
      if canceled {
        adapter.DecDirectCount();
        return Err(RequestCanceled);
      }
      if response {
        requestId := requestId + 1;
        id := requestId;
        assert id !in asyncRequests;  // the reply table's insertion cannot raise
        asyncRequests := asyncRequests[id := c];
      }
      if c in sendAsyncRequests {
        adapter.DecDirectCount();
        return Err(DuplicateCall);
      }
      sendAsyncRequests := sendAsyncRequests[c := id];
      return Ok(id);
    }

    /** The unit of work: dispatch the call only if it is still registered when it runs. */
    method RunWork(work: Work, os: array<byte>, sentAccepted: bool, outcome: DispatchOutcome,
                   reply: array<byte>, accepted: bool)
      requires Valid()
      requires 0 <= work.requestId && IsInt32(work.requestId)
      requires RequestHeaderLength <= os.Length && IsInt32(os.Length)
      requires ReplyHeaderLength <= reply.Length && IsInt32(reply.Length) && reply != os
      modifies this, adapter, os, reply
      ensures Valid()
      ensures SendPending(old(State()), work.call) ==>
                && State() == InvokeAllState(AfterSent(old(State()), work.call), work.requestId, outcome)
                && os[..] == (if traceProtocol >= 1 then TracePatched(old(os[..]), work.requestId) else old(os[..]))
                && reply[..] == Answered(!old(adapter.deactivated), outcome, old(reply[..]))
      ensures !SendPending(old(State()), work.call) ==>
                State() == old(State()) && os[..] == old(os[..]) && reply[..] == old(reply[..])
    {
      var proceed, _ := SentAsync(work.call, sentAccepted);
      if proceed {
        var _ := InvokeAll(os, work.requestId, outcome, reply, accepted);
      }
    }
  }
}
