/**
 * The bookkeeping of the collocated (same-process) request handler, as pure
 * values: the request-id counter, the two lookup tables (call -> id for calls
 * not yet sent, id -> call for two-way calls awaiting a reply) and the hosting
 * adapter's direct count with its deactivation flag.  Each locked region of
 * the handler is one step from one `HandlerState` to the next; the class in
 * collocated_handler.dfy is proved to take exactly these steps.
 */
module CollocatedState {
  import opened Wrappers
  import opened Wire

  /** The identity of one outgoing asynchronous call object. */
  type CallId = nat

  /** Where the unit of work of an invocation runs. */
  datatype Placement = ThreadPool | DispatcherThread | CallingThread

  datatype HandlerError =
    | AdapterDeactivated   // incDirectCount refused: the adapter is deactivated
    | RequestCanceled      // outAsync.cancelable raised: the call was canceled before registration
    | DuplicateRequestId   // _asyncRequests.Add raised: the id is already a key
    | DuplicateCall        // _sendAsyncRequests.Add raised: the call object is already a key

  /** Whether, and how, a completion callback of the call was run. */
  datatype Completion = NoCallback | Callback(async: bool)

  /** What the servant dispatch of one request did. */
  datatype DispatchOutcome =
    | Replied(amd: bool)   // the dispatch sent a reply through SendResponse
    | NoReply              // the dispatch finished a one-way request through SendNoResponse
    | Failed(amd: bool)    // the dispatch reported a system exception through SystemException
    | Raised               // the dispatch itself raised a local exception

  datatype HandlerState = HandlerState(
    requestId: int,
    sendAsyncRequests: map<CallId, int>,
    asyncRequests: map<int, CallId>,
    directCount: int,
    deactivated: bool)

  /**
   * The handler's invariant: every id in use was handed out by the counter;
   * a one-way handler never uses a non-zero id, a two-way one never id 0.
   */
  ghost predicate Inv(s: HandlerState, response: bool) {
    && s.requestId >= 0
    && (forall id | id in s.asyncRequests :: 0 < id <= s.requestId)
    && (forall c | c in s.sendAsyncRequests :: 0 <= s.sendAsyncRequests[c] <= s.requestId)
    && (!response ==> s.asyncRequests == map[] && forall c | c in s.sendAsyncRequests :: s.sendAsyncRequests[c] == 0)
    && (response ==> forall c | c in s.sendAsyncRequests :: s.sendAsyncRequests[c] > 0)
  }

  /** No entry of the reply table refers to call `c`. */
  ghost predicate NotAwaited(s: HandlerState, c: CallId) {
    forall id | id in s.asyncRequests :: s.asyncRequests[id] != c
  }

  // ---------------------------------------------------------------- scheduling

  /** The decision of invokeAsyncRequest on where the unit of work runs. */
  function Schedule(synchronous: bool, response: bool, invocationTimeout: int, hasDispatcher: bool): (r: Placement) {
    if !synchronous || !response || invocationTimeout > 0 then ThreadPool
    else if hasDispatcher then DispatcherThread
    else CallingThread
  }

  lemma ScheduleTable(synchronous: bool, response: bool, invocationTimeout: int, hasDispatcher: bool)
    ensures Schedule(synchronous, response, invocationTimeout, hasDispatcher) == ThreadPool
            <==> !synchronous || !response || invocationTimeout > 0
    ensures Schedule(synchronous, response, invocationTimeout, hasDispatcher) == DispatcherThread
            <==> synchronous && response && invocationTimeout <= 0 && hasDispatcher
    ensures Schedule(synchronous, response, invocationTimeout, hasDispatcher) == CallingThread
            <==> synchronous && response && invocationTimeout <= 0 && !hasDispatcher
  {
  }

  // ---------------------------------------------------------------- registration

  datatype Registration = Registration(after: HandlerState, result: Result<int, HandlerError>)

  /**
   * The part of invokeAsyncRequest before scheduling: increment the direct
   * count, then (under the lock) register the call, undoing the increment if
   * registration raises.  The counter and the reply-table entry are updated
   * before the call-table insertion, so a duplicate call object leaves them.
   */
  function Register(s: HandlerState, c: CallId, response: bool, canceled: bool): (r: Registration) {
    if s.deactivated then Registration(s, Err(AdapterDeactivated))
    else if canceled then Registration(s, Err(RequestCanceled))
    else if response then
      var id := s.requestId + 1;
      if id in s.asyncRequests then Registration(s.(requestId := id), Err(DuplicateRequestId))
      else
        var s1 := s.(requestId := id, asyncRequests := s.asyncRequests[id := c]);
        if c in s.sendAsyncRequests then Registration(s1, Err(DuplicateCall))
        else Registration(s1.(sendAsyncRequests := s.sendAsyncRequests[c := id],
                              directCount := s.directCount + 1), Ok(id))
    else if c in s.sendAsyncRequests then Registration(s, Err(DuplicateCall))
    else Registration(s.(sendAsyncRequests := s.sendAsyncRequests[c := 0],
                         directCount := s.directCount + 1), Ok(0))
  }

  /** What a successful registration did, and that a two-way id is fresh. */
  lemma RegisterSucceeds(s: HandlerState, c: CallId, response: bool, canceled: bool)
    requires Inv(s, response)
    ensures var r := Register(s, c, response, canceled);
            r.result.Ok? <==> !s.deactivated && !canceled && c !in s.sendAsyncRequests
    ensures var r := Register(s, c, response, canceled);
            r.result.Ok? ==>
              var id := r.result.value;
              && (response ==> id == s.requestId + 1 && id > 0
                               && (forall k | k in s.asyncRequests :: k < id)
                               && (forall d | d in s.sendAsyncRequests :: s.sendAsyncRequests[d] < id)
                               && r.after.asyncRequests == s.asyncRequests[id := c]
                               && r.after.requestId == id)
              && (!response ==> id == 0 && r.after.asyncRequests == s.asyncRequests
                                && r.after.requestId == s.requestId)
              && r.after.sendAsyncRequests == s.sendAsyncRequests[c := id]
              && r.after.directCount == s.directCount + 1
              && r.after.deactivated == s.deactivated
  {
    if response && !s.deactivated && !canceled {
      assert s.requestId + 1 !in s.asyncRequests;
    }
  }

  /** A failed registration leaves the direct count and the call table as they were. */
  lemma RegisterFails(s: HandlerState, c: CallId, response: bool, canceled: bool)
    requires Inv(s, response)
    ensures var r := Register(s, c, response, canceled);
            r.result.Err? ==>
              && r.after.directCount == s.directCount
              && r.after.sendAsyncRequests == s.sendAsyncRequests
              && r.after.deactivated == s.deactivated
              && r.result.error != DuplicateRequestId
              && (s.deactivated ==> r.result.error == AdapterDeactivated && r.after == s)
              && (!s.deactivated && canceled ==> r.result.error == RequestCanceled && r.after == s)
              && (!s.deactivated && !canceled ==> r.result.error == DuplicateCall && c in s.sendAsyncRequests)
  {
    if response && !s.deactivated && !canceled {
      assert s.requestId + 1 !in s.asyncRequests;
    }
  }

  /** Registration keeps the invariant on every path. */
  lemma RegisterKeepsInv(s: HandlerState, c: CallId, response: bool, canceled: bool)
    requires Inv(s, response)
    ensures Inv(Register(s, c, response, canceled).after, response)
  {
    if response && !s.deactivated && !canceled {
      assert s.requestId + 1 !in s.asyncRequests;
    }
  }

  /** Two registrations in a row hand out strictly increasing ids. */
  lemma IdsIncrease(s: HandlerState, c1: CallId, c2: CallId)
    requires Inv(s, true)
    requires Register(s, c1, true, false).result.Ok?
    requires Register(Register(s, c1, true, false).after, c2, true, false).result.Ok?
    ensures Register(s, c1, true, false).result.value
            < Register(Register(s, c1, true, false).after, c2, true, false).result.value
  {
    RegisterSucceeds(s, c1, true, false);
    RegisterKeepsInv(s, c1, true, false);
    RegisterSucceeds(Register(s, c1, true, false).after, c2, true, false);
  }

  // ---------------------------------------------------------------- sent confirmation

  /** sentAsync: the call may proceed exactly when it is still in the call table. */
  predicate SendPending(s: HandlerState, c: CallId) {
    c in s.sendAsyncRequests
  }

  /** sentAsync removes the call from the call table; a call absent from it is left alone. */
  function AfterSent(s: HandlerState, c: CallId): (r: HandlerState) {
    s.(sendAsyncRequests := s.sendAsyncRequests - {c})
  }

  /** Confirming "sent" succeeds once: a second confirmation is refused and changes nothing. */
  lemma SentOnce(s: HandlerState, c: CallId)
    ensures !SendPending(AfterSent(s, c), c)
    ensures AfterSent(AfterSent(s, c), c) == AfterSent(s, c)
    ensures !SendPending(s, c) ==> AfterSent(s, c) == s
  {
  }

  // ---------------------------------------------------------------- cancellation

  /** Canceling a call still in the call table: drop both entries and the direct count reference. */
  function CancelBeforeSend(s: HandlerState, c: CallId): (r: HandlerState)
    requires c in s.sendAsyncRequests
  {
    var id := s.sendAsyncRequests[c];
    s.(asyncRequests := if id > 0 then s.asyncRequests - {id} else s.asyncRequests,
       sendAsyncRequests := s.sendAsyncRequests - {c},
       directCount := s.directCount - 1)
  }

  /**
   * Canceling a call that was already sent: the scan over the reply table
   * removes the first entry it meets that refers to the call (the table's
   * enumeration order is unspecified, so any matching entry), or nothing.
   */
  ghost predicate CanceledAfterSend(s: HandlerState, c: CallId, t: HandlerState) {
    if NotAwaited(s, c) then t == s
    else exists id | id in s.asyncRequests && s.asyncRequests[id] == c ::
           t == s.(asyncRequests := s.asyncRequests - {id})
  }

  /** AsyncRequestCanceled, as a relation between the state before and after. */
  ghost predicate Canceled(s: HandlerState, c: CallId, isOutgoingAsync: bool, t: HandlerState) {
    if c in s.sendAsyncRequests then t == CancelBeforeSend(s, c)
    else if isOutgoingAsync then CanceledAfterSend(s, c, t)
    else t == s
  }

  /** A call in neither table: cancellation changes nothing. */
  lemma CancelUnknownIsNoop(s: HandlerState, c: CallId, isOutgoingAsync: bool, t: HandlerState)
    requires c !in s.sendAsyncRequests && NotAwaited(s, c)
    requires Canceled(s, c, isOutgoingAsync, t)
    ensures t == s
  {
  }

  /** Cancellation after send never touches the direct count or the call table, and drops at most one id. */
  lemma CancelAfterSendFrame(s: HandlerState, c: CallId, isOutgoingAsync: bool, t: HandlerState)
    requires c !in s.sendAsyncRequests
    requires Canceled(s, c, isOutgoingAsync, t)
    ensures t.directCount == s.directCount
    ensures t.sendAsyncRequests == s.sendAsyncRequests
    ensures t.asyncRequests.Keys <= s.asyncRequests.Keys
    ensures |s.asyncRequests.Keys - t.asyncRequests.Keys| <= 1
    ensures forall id | id in t.asyncRequests :: t.asyncRequests[id] == s.asyncRequests[id]
  {
    if isOutgoingAsync && !NotAwaited(s, c) {
      var id :| id in s.asyncRequests && s.asyncRequests[id] == c
                && t == s.(asyncRequests := s.asyncRequests - {id});
      assert s.asyncRequests.Keys - t.asyncRequests.Keys == {id};
    }
  }

  /** When exactly one reply entry refers to the call, cancel-after-send removes that entry. */
  lemma CancelAfterSendUnique(s: HandlerState, c: CallId, id: int, t: HandlerState)
    requires c !in s.sendAsyncRequests
    requires id in s.asyncRequests && s.asyncRequests[id] == c
    requires forall k | k in s.asyncRequests && k != id :: s.asyncRequests[k] != c
    requires Canceled(s, c, true, t)
    ensures t == s.(asyncRequests := s.asyncRequests - {id})
  {
    var k :| k in s.asyncRequests && s.asyncRequests[k] == c
              && t == s.(asyncRequests := s.asyncRequests - {k});
  }

  lemma CancelKeepsInv(s: HandlerState, c: CallId, isOutgoingAsync: bool, t: HandlerState, response: bool)
    requires Inv(s, response)
    requires Canceled(s, c, isOutgoingAsync, t)
    ensures Inv(t, response)
  {
    if c !in s.sendAsyncRequests && isOutgoingAsync && !NotAwaited(s, c) {
      var id :| id in s.asyncRequests && s.asyncRequests[id] == c
                && t == s.(asyncRequests := s.asyncRequests - {id});
    }
  }

  // ---------------------------------------------------------------- responses and errors

  /** decDirectCount. */
  function Release(s: HandlerState): (r: HandlerState) {
    s.(directCount := s.directCount - 1)
  }

  /** A successful incDirectCount (only possible while the adapter is active). */
  function Acquire(s: HandlerState): (r: HandlerState) {
    s.(directCount := s.directCount + 1)
  }

  /** SendResponse: retire the id, if still present, and release one direct count reference. */
  function Respond(s: HandlerState, requestId: int): (r: HandlerState) {
    Release(s.(asyncRequests := s.asyncRequests - {requestId}))
  }

  /** handleException: one-way errors (id 0) are ignored, otherwise the id is retired if present. */
  function Fail(s: HandlerState, requestId: int): (r: HandlerState) {
    if requestId == 0 then s else s.(asyncRequests := s.asyncRequests - {requestId})
  }

  /** Whether SendResponse or handleException for `requestId` completes a call. */
  predicate Awaited(s: HandlerState, requestId: int) {
    requestId != 0 && requestId in s.asyncRequests
  }

  /** The effects of SendResponse, SendNoResponse and handleException. */
  lemma CompletionEffects(s: HandlerState, requestId: int)
    ensures Respond(s, requestId).directCount == s.directCount - 1
    ensures Respond(s, requestId).asyncRequests.Keys == s.asyncRequests.Keys - {requestId}
    ensures Respond(s, requestId).sendAsyncRequests == s.sendAsyncRequests
    ensures Release(s).directCount == s.directCount - 1
    ensures Release(s).asyncRequests == s.asyncRequests && Release(s).sendAsyncRequests == s.sendAsyncRequests
    ensures requestId == 0 ==> Fail(s, requestId) == s
    ensures requestId != 0 ==> Fail(s, requestId).asyncRequests.Keys == s.asyncRequests.Keys - {requestId}
    ensures Fail(s, requestId).directCount == s.directCount
    ensures Fail(s, requestId).sendAsyncRequests == s.sendAsyncRequests
    ensures Respond(Respond(s, requestId), requestId).asyncRequests == Respond(s, requestId).asyncRequests
    ensures Fail(Fail(s, requestId), requestId) == Fail(s, requestId)
  {
  }

  // ---------------------------------------------------------------- the dispatch unit

  /** One pass of the loop of invokeAll: acquire a reference, dispatch, and have the outcome routed back. */
  function DispatchStep(s: HandlerState, requestId: int, outcome: DispatchOutcome): (r: HandlerState) {
    if s.deactivated then Fail(s, requestId)
    else
      var s1 := Acquire(s);
      match outcome
      case Replied(_) => Respond(s1, requestId)
      case NoReply => Release(s1)
      case Failed(_) => Release(Fail(s1, requestId))
      case Raised => Release(Fail(s1, requestId))
  }

  /** invokeAll: the dispatch step, then the release of the reference taken at submission. */
  function InvokeAllState(s: HandlerState, requestId: int, outcome: DispatchOutcome): (r: HandlerState) {
    Release(DispatchStep(s, requestId, outcome))
  }

  /** A two-way dispatch always answers, through a reply or an error. */
  predicate Answers(response: bool, outcome: DispatchOutcome) {
    response ==> !outcome.NoReply?
  }

  /**
   * invokeAll releases exactly one reference more than it acquires, on every
   * path, retires the request's id unless a two-way dispatch stayed silent,
   * and touches nothing else.
   */
  lemma InvokeAllReleasesOnce(s: HandlerState, requestId: int, outcome: DispatchOutcome)
    ensures InvokeAllState(s, requestId, outcome).directCount == s.directCount - 1
    ensures InvokeAllState(s, requestId, outcome).sendAsyncRequests == s.sendAsyncRequests
    ensures InvokeAllState(s, requestId, outcome).requestId == s.requestId
    ensures (requestId != 0 && (s.deactivated || !outcome.NoReply?)) ==>
              InvokeAllState(s, requestId, outcome).asyncRequests == s.asyncRequests - {requestId}
    ensures ((requestId == 0 && 0 !in s.asyncRequests) || (!s.deactivated && outcome.NoReply?)) ==>
              InvokeAllState(s, requestId, outcome).asyncRequests == s.asyncRequests
  {
  }

  lemma InvokeAllKeepsInv(s: HandlerState, requestId: int, outcome: DispatchOutcome, response: bool)
    requires Inv(s, response)
    ensures Inv(InvokeAllState(s, requestId, outcome), response)
  {
  }

  // ---------------------------------------------------------------- whole lifetimes of one call

  /**
   * A call registered, confirmed sent and dispatched -- with the adapter
   * possibly deactivated in between -- leaves the direct count and both
   * tables exactly as they were before it was submitted.
   */
  lemma DispatchedCallIsBalanced(s: HandlerState, c: CallId, response: bool,
                                 deactivatedMidFlight: bool, outcome: DispatchOutcome)
    requires Inv(s, response)
    requires Register(s, c, response, false).result.Ok?
    requires Answers(response, outcome)
    ensures var r := Register(s, c, response, false);
            var u := AfterSent(r.after, c).(deactivated := deactivatedMidFlight);
            var t := InvokeAllState(u, r.result.value, outcome);
            && SendPending(r.after, c)
            && t.directCount == s.directCount
            && t.sendAsyncRequests == s.sendAsyncRequests
            && t.asyncRequests == s.asyncRequests
  {
    RegisterSucceeds(s, c, response, false);
    var r := Register(s, c, response, false);
    var id := r.result.value;
    assert response ==> id !in s.asyncRequests;
    assert r.after.sendAsyncRequests - {c} == s.sendAsyncRequests;
    assert response ==> r.after.asyncRequests - {id} == s.asyncRequests;
  }

  /** A call canceled before it was sent: its registration is undone and its reference released. */
  lemma CanceledBeforeSendIsBalanced(s: HandlerState, c: CallId, response: bool,
                                     isOutgoingAsync: bool, t: HandlerState)
    requires Inv(s, response)
    requires Register(s, c, response, false).result.Ok?
    requires Canceled(Register(s, c, response, false).after, c, isOutgoingAsync, t)
    ensures t.directCount == s.directCount
    ensures t.sendAsyncRequests == s.sendAsyncRequests
    ensures t.asyncRequests == s.asyncRequests
    ensures !SendPending(t, c)
  {
    RegisterSucceeds(s, c, response, false);
    var r := Register(s, c, response, false);
    var id := r.result.value;
    assert response ==> id !in s.asyncRequests;
    assert r.after.sendAsyncRequests - {c} == s.sendAsyncRequests;
    assert response ==> r.after.asyncRequests - {id} == s.asyncRequests;
  }

  /**
   * A call canceled after it was sent but before its dispatch answered: the
   * cancellation retires the id without releasing, the dispatch's answer then
   * finds nothing to complete, and the references still balance.
   */
  lemma CanceledAfterSendIsBalanced(s: HandlerState, c: CallId, outcome: DispatchOutcome,
                                    t: HandlerState)
    requires Inv(s, true) && NotAwaited(s, c)
    requires Register(s, c, true, false).result.Ok?
    requires Canceled(AfterSent(Register(s, c, true, false).after, c), c, true, t)
    ensures var id := Register(s, c, true, false).result.value;
            && !Awaited(t, id)
            && InvokeAllState(t, id, outcome).directCount == s.directCount
            && InvokeAllState(t, id, outcome).sendAsyncRequests == s.sendAsyncRequests
            && InvokeAllState(t, id, outcome).asyncRequests == s.asyncRequests
  {
    RegisterSucceeds(s, c, true, false);
    var r := Register(s, c, true, false);
    var id := r.result.value;
    var u := AfterSent(r.after, c);
    assert u.sendAsyncRequests == s.sendAsyncRequests;
    CancelAfterSendUnique(u, c, id, t);
    assert t.asyncRequests == s.asyncRequests;
  }

  // ---------------------------------------------------------------- tracing

  /**
   * The buffer invokeAll hands to the tracer: the size field rewritten with
   * the buffer's size and, for a two-way request, the request-id field
   * rewritten with the id.
   */
  function TracePatched(buf: seq<byte>, requestId: int): (r: seq<byte>)
    requires RequestHeaderLength <= |buf| && IsInt32(|buf|) && IsInt32(requestId)
    ensures |r| == |buf|
  {
    var sized := RewriteInt(buf, SizeOffset, |buf|);
    if requestId > 0 then RewriteInt(sized, HeaderSize, requestId) else sized
  }

  lemma TracePatchedFields(buf: seq<byte>, requestId: int)
    requires RequestHeaderLength <= |buf| && IsInt32(|buf|) && IsInt32(requestId)
    ensures var r := TracePatched(buf, requestId);
            && DecodeInt32(r[SizeOffset..SizeOffset + 4]) == |buf|
            && (requestId > 0 ==> DecodeInt32(r[HeaderSize..HeaderSize + 4]) == requestId)
            && (requestId <= 0 ==> r[HeaderSize..HeaderSize + 4] == buf[HeaderSize..HeaderSize + 4])
            && forall i | 0 <= i < |buf| && !(SizeOffset <= i < HeaderSize + 4) :: r[i] == buf[i]
  {
    var sized := RewriteInt(buf, SizeOffset, |buf|);
    RewriteThenRead(buf, SizeOffset, |buf|);
    if requestId > 0 {
      RewriteThenRead(sized, HeaderSize, requestId);
      var r := RewriteInt(sized, HeaderSize, requestId);
      assert r[SizeOffset..SizeOffset + 4] == sized[SizeOffset..SizeOffset + 4];
    } else {
      assert sized[HeaderSize..HeaderSize + 4] == buf[HeaderSize..HeaderSize + 4];
    }
  }
}
