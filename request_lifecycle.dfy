/** The life of one pending request: the two flags `transferBegun` and `completed`, the response slot
    and the waiter event, as changed by the three parties that touch it (the blocked caller, the
    dequeuer that claims it and the responder that answers it). Every change happens under the
    request's own lock in the source, so each is one atomic step here, and any interleaving of the
    parties is a sequence of steps. */
module RequestLifecycle {
  import opened Wrappers
  import opened Messages

  /** How a caller's wait returned normally. */
  datatype Ending = Answered | QueueExpired | ProcessingExpired

  /** Where the caller blocked in `WaitUntilComplete` stands. */
  datatype Stage =
    | Queued                              // in the first wait: queue-wait timeout and the caller's token
    | AwaitingTransfer(cancelled: bool)   // in the second wait: processing timeout, no token
    | Returned(ending: Ending)             // `WaitUntilComplete` returned
    | Threw                               // cancelled before the claim: the cancellation propagated

  datatype RequestState = RequestState(
    request: RequestMessage,
    transferBegun: bool,
    completed: bool,
    signalled: bool,                      // the state of the `waiter` event
    response: Option<ResponseMessage>,
    stage: Stage)

  /** The steps the three parties take. */
  datatype Event =
    | Claim                               // dequeuer: `BeginTransfer`
    | Respond(response: ResponseMessage)  // responder: `SetResponse`, reached through `ApplyResponse`
    | Signalled                           // caller: a wait returned true
    | Cancelled                           // caller: the first wait threw a cancellation
    | QueueTimeout                        // caller: the first wait returned false
    | ProcessingTimeout                   // caller: the second wait returned false

  function Initial(request: RequestMessage): RequestState {
    RequestState(request, false, false, false, None, Queued)
  }

  predicate Waiting(s: RequestState) {
    s.stage.Queued? || s.stage.AwaitingTransfer?
  }

  predicate Finished(s: RequestState) {
    s.stage.Returned? || s.stage.Threw?
  }

  /** `BeginTransfer`: the claim succeeds, and marks the transfer begun, exactly when the request is
      not completed. */
  function BeginTransfer(s: RequestState): (r: (RequestState, bool))
    ensures r.1 <==> !s.completed
    ensures r.0 == if r.1 then s.(transferBegun := true) else s
  {
    if s.completed then (s, false) else (s.(transferBegun := true), true)
  }

  /** `SetResponse`: store the response and set the waiter event. */
  function SetResponse(s: RequestState, response: ResponseMessage): RequestState {
    s.(response := Some(response), signalled := true)
  }

  /** A wait returned true: the caller returns. */
  function OnSignalled(s: RequestState): RequestState
    requires s.signalled && Waiting(s)
  {
    s.(stage := Returned(Answered))
  }

  /** The first wait threw a cancellation. Before the claim the request is abandoned and the
      cancellation rethrown; after it the cancellation is swallowed and the caller waits on. */
  function OnCancelled(s: RequestState): (r: RequestState)
    requires s.stage.Queued?
    ensures !s.transferBegun ==> r.completed && r.stage == Threw
    ensures s.transferBegun ==> r == s.(stage := AwaitingTransfer(true))
  {
    if !s.transferBegun then s.(completed := true, stage := Threw)
    else s.(stage := AwaitingTransfer(true))
  }

  /** The first wait returned false. Unclaimed, the request is abandoned with the "not collected"
      timeout response; claimed, the caller waits on for the processing timeout. */
  function OnQueueTimeout(s: RequestState): (r: RequestState)
    requires s.stage.Queued?
    ensures !s.transferBegun ==>
      r.completed && r.stage == Returned(QueueExpired) &&
      r.response == Some(TimeoutResponse(s.request, NotCollected))
    ensures s.transferBegun ==> r == s.(stage := AwaitingTransfer(false))
  {
    if s.transferBegun then s.(stage := AwaitingTransfer(false))
    else SetResponse(s.(completed := true), TimeoutResponse(s.request, NotCollected)).(stage := Returned(QueueExpired))
  }

  /** The second wait returned false: the caller returns the "collected but did not respond"
      timeout response. */
  function OnProcessingTimeout(s: RequestState): (r: RequestState)
    requires s.stage.AwaitingTransfer?
    ensures r.stage == Returned(ProcessingExpired)
    ensures r.response == Some(TimeoutResponse(s.request, CollectedButNoResponse))
  {
    SetResponse(s, TimeoutResponse(s.request, CollectedButNoResponse)).(stage := Returned(ProcessingExpired))
  }

  /** When each party can take a step: a wait returns true only once the event is set, the caller's
      steps happen only while it is in the matching wait, and a response reaches a request only
      under that request's id. */
  predicate Enabled(s: RequestState, e: Event) {
    match e
    case Claim => true
    case Respond(r) => r.id == s.request.id
    case Signalled => s.signalled && Waiting(s)
    case Cancelled => s.stage.Queued?
    case QueueTimeout => s.stage.Queued?
    case ProcessingTimeout => s.stage.AwaitingTransfer?
  }

  function Step(s: RequestState, e: Event): RequestState
    requires Enabled(s, e)
  {
    match e
    case Claim => BeginTransfer(s).0
    case Respond(r) => SetResponse(s, r)
    case Signalled => OnSignalled(s)
    case Cancelled => OnCancelled(s)
    case QueueTimeout => OnQueueTimeout(s)
    case ProcessingTimeout => OnProcessingTimeout(s)
  }

  /** A sequence of steps each of which is enabled when it is taken. */
  ghost predicate Legal(s: RequestState, trace: seq<Event>)
    decreases |trace|
  {
    trace == [] || (Enabled(s, trace[0]) && Legal(Step(s, trace[0]), trace[1..]))
  }

  ghost function Run(s: RequestState, trace: seq<Event>): RequestState
    requires Legal(s, trace)
    decreases |trace|
  {
    if trace == [] then s else Run(Step(s, trace[0]), trace[1..])
  }

  /** What holds of every reachable state: the two flags are never both set, the event is set exactly
      when a response is stored, the stored response is the request's, and each stage agrees with
      the flags. */
  ghost predicate Inv(s: RequestState) {
    && !(s.transferBegun && s.completed)
    && (s.signalled <==> s.response.Some?)
    && (s.response.Some? ==> s.response.value.id == s.request.id)
    && (s.stage.Queued? ==> !s.completed)
    && (s.stage.AwaitingTransfer? ==> s.transferBegun)
    && (s.stage.Threw? ==> s.completed)
    && (s.stage.Returned? ==> s.signalled)
    && (s.stage == Returned(QueueExpired) ==> s.completed)
    && (s.stage == Returned(ProcessingExpired) ==> s.transferBegun)
  }

  lemma InitialInv(request: RequestMessage)
    ensures Inv(Initial(request))
  {
  }

  lemma StepKeepsInv(s: RequestState, e: Event)
    requires Inv(s) && Enabled(s, e)
    ensures Inv(Step(s, e))
  {
  }

  /** Every interleaving of the three parties keeps the invariant; in particular `transferBegun` and
      `completed` are never both true. */
  lemma {:induction false} RunKeepsInv(s: RequestState, trace: seq<Event>)
    requires Inv(s) && Legal(s, trace)
    ensures Inv(Run(s, trace))
    ensures !(Run(s, trace).transferBegun && Run(s, trace).completed)
    decreases |trace|
  {
    if trace != [] {
      StepKeepsInv(s, trace[0]);
      RunKeepsInv(Step(s, trace[0]), trace[1..]);
    }
  }

  /** Once a dequeuer has claimed the request, no later cancellation or timeout abandons it: it is
      never completed, the caller never throws, and it never ends with the "not collected" timeout. */
  lemma {:induction false} ClaimIsFinal(s: RequestState, trace: seq<Event>)
    requires Inv(s) && s.transferBegun && Legal(s, trace)
    ensures Run(s, trace).transferBegun && !Run(s, trace).completed
    ensures Run(s, trace).stage != Threw && Run(s, trace).stage != Returned(QueueExpired)
    decreases |trace|
  {
    if trace != [] {
      StepKeepsInv(s, trace[0]);
      ClaimIsFinal(Step(s, trace[0]), trace[1..]);
    } else {
      assert Inv(s);
    }
  }

  /** Once the caller has given up on an unclaimed request, it is never claimed: every later
      `BeginTransfer` returns false and the transfer never begins. */
  lemma {:induction false} AbandonIsFinal(s: RequestState, trace: seq<Event>)
    requires Inv(s) && s.completed && Legal(s, trace)
    ensures Run(s, trace).completed && !Run(s, trace).transferBegun
    ensures !BeginTransfer(Run(s, trace)).1
    decreases |trace|
  {
    if trace != [] {
      StepKeepsInv(s, trace[0]);
      AbandonIsFinal(Step(s, trace[0]), trace[1..]);
    }
  }

  /** Once the caller's wait has ended, how it ended never changes: the outcome (answered, queue
      timeout, processing timeout, or cancelled before the claim) is decided exactly once. */
  lemma {:induction false} EndingIsFinal(s: RequestState, trace: seq<Event>)
    requires Finished(s) && Legal(s, trace)
    ensures Run(s, trace).stage == s.stage
    decreases |trace|
  {
    if trace != [] {
      EndingIsFinal(Step(s, trace[0]), trace[1..]);
    }
  }

  /** A cancellation that arrives after the claim changes nothing but where the caller waits: the
      request stays claimed, uncompleted and unanswered-for. */
  lemma LateCancelKeepsWaiting(s: RequestState)
    requires Inv(s) && s.stage.Queued? && s.transferBegun
    ensures OnCancelled(s) == s.(stage := AwaitingTransfer(true))
    ensures !OnCancelled(s).completed && OnCancelled(s).response == s.response
  {
  }

  /** The race between "caller cancels" and "dequeuer claims" on a fresh request has exactly one
      winner, decided by which step takes the lock first. */
  lemma ClaimRacesCancel(request: RequestMessage)
    ensures Legal(Initial(request), [Claim, Cancelled])
    ensures Run(Initial(request), [Claim, Cancelled]).stage == AwaitingTransfer(true)
    ensures Run(Initial(request), [Claim, Cancelled]).transferBegun
    ensures Legal(Initial(request), [Cancelled, Claim])
    ensures Run(Initial(request), [Cancelled, Claim]).stage == Threw
    ensures !Run(Initial(request), [Cancelled, Claim]).transferBegun
  {
    var s0 := Initial(request);
    assert [Claim, Cancelled][1..] == [Cancelled];
    assert [Cancelled, Claim][1..] == [Claim];
    assert Run(s0, [Claim, Cancelled]) == Run(Step(s0, Claim), [Cancelled]);
    assert Run(s0, [Cancelled, Claim]) == Run(Step(s0, Cancelled), [Claim]);
  }

  /** The timeouts that end a wait from the current stage, with no other party acting. */
  function Expiries(s: RequestState): seq<Event>
    requires Waiting(s)
  {
    if s.stage.AwaitingTransfer? then [ProcessingTimeout]
    else if s.transferBegun then [QueueTimeout, ProcessingTimeout]
    else [QueueTimeout]
  }

  /** Every wait is bounded: from any waiting stage the timeouts alone end the wait, and it ends by
      returning a response correlated with the request, never with nothing. */
  lemma TimeoutsBoundTheWait(s: RequestState)
    requires Inv(s) && Waiting(s)
    ensures Legal(s, Expiries(s))
    ensures Run(s, Expiries(s)).stage.Returned?
    ensures Run(s, Expiries(s)).response.Some?
    ensures Run(s, Expiries(s)).response.value.id == s.request.id
  {
    var t := Expiries(s);
    if |t| == 2 {
      var s1 := Step(s, QueueTimeout);
      assert t[1..] == [ProcessingTimeout];
      assert Run(s, t) == Run(s1, [ProcessingTimeout]);
    }
  }
}
