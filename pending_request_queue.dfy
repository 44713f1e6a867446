/** The pending request queue of one polling destination: a FIFO backlog of requests waiting to be
    collected by the polling endpoint, and the table of requests whose callers still wait for an
    answer, keyed by request id.

    The source blocks the caller inside `QueueAndWait` and the dequeuer inside `DequeueAsync`. Here
    each wait is cut at its suspension points and every way a wait can end is a method of its own,
    so an interleaving of callers, dequeuers and responders is a sequence of method calls:

      caller:     QueueAndWait, then one of WaitSignalled / WaitCancelled / QueueWaitExpired,
                  after a claim possibly WaitSignalled / ProcessingWaitExpired, then Collect
      dequeuer:   DequeueAsync, and ResumeDequeue when it had to wait for items
      responder:  ApplyResponse */
module ServiceModel {
  import opened Wrappers
  import opened Messages
  import L = RequestLifecycle

  /** One queued request: the source's nested `PendingRequest`. Its caller's position in
      `WaitUntilComplete` is the ghost field `stage`. */
  class PendingRequest {
    const request: RequestMessage
    var transferBegun: bool
    var completed: bool
    var signalled: bool
    var response: Option<ResponseMessage>
    ghost var stage: L.Stage

    ghost function State(): L.RequestState
      reads this
    {
      L.RequestState(request, transferBegun, completed, signalled, response, stage)
    }

    constructor (request: RequestMessage)
      ensures State() == L.Initial(request)
    {
      this.request := request;
      transferBegun, completed, signalled, response := false, false, false, None;
      stage := L.Queued;
    }

    /** The dequeuer's claim, under the request's lock. */
    method BeginTransfer() returns (ok: bool)
      modifies this
      ensures ok <==> !old(completed)
      ensures (State(), ok) == L.BeginTransfer(old(State()))
    {
      if completed {
        return false;
      }
      transferBegun := true;
      return true;
    }

    method SetResponse(r: ResponseMessage)
      modifies this
      ensures State() == L.SetResponse(old(State()), r)
    {
      response := Some(r);
      signalled := true;
    }

    /** Either wait of `WaitUntilComplete` returned true. */
    method WaitSignalled()
      requires signalled && L.Waiting(State())
      modifies this
      ensures State() == L.OnSignalled(old(State()))
    {
      stage := L.Returned(L.Answered);
    }

    /** The first wait threw a cancellation; `rethrown` says whether `WaitUntilComplete` rethrows it. */
    method WaitCancelled() returns (rethrown: bool)
      requires stage.Queued?
      modifies this
      ensures rethrown <==> !old(transferBegun)
      ensures State() == L.OnCancelled(old(State()))
    {
      if !transferBegun {
        completed := true;
        stage := L.Threw;
        return true;
      }
      stage := L.AwaitingTransfer(true);
      return false;
    }

    /** The first wait returned false: the queue-wait timeout expired. */
    method QueueWaitExpired()
      requires stage.Queued?
      modifies this
      ensures State() == L.OnQueueTimeout(old(State()))
    {
      if transferBegun {
        stage := L.AwaitingTransfer(false);
      } else {
        completed := true;
        SetResponse(TimeoutResponse(request, NotCollected));
        stage := L.Returned(L.QueueExpired);
      }
    }

    /** The second wait returned false: the processing timeout expired. */
    method ProcessingWaitExpired()
      requires stage.AwaitingTransfer?
      modifies this
      ensures State() == L.OnProcessingTimeout(old(State()))
    {
      SetResponse(TimeoutResponse(request, CollectedButNoResponse));
      stage := L.Returned(L.ProcessingExpired);
    }
  }

  /** What the dequeuer's first attempt yields: a result, or an empty backlog it must wait on. */
  datatype DequeueStep = Dequeued(request: Option<RequestMessage>) | MustWait

  /** `Dictionary.Add` refusing an id that is already registered. */
  datatype QueueError = DuplicateId(id: string)

  class PendingRequestQueue {
    var queue: seq<PendingRequest>
    var inProgress: map<string, PendingRequest>
    var hasItems: bool
    /** The requests whose callers are blocked in `QueueAndWait`. */
    ghost var waiters: set<PendingRequest>
    /** The requests `DequeueAsync` has ever returned. */
    ghost var handedOut: set<PendingRequest>

    ghost predicate Valid()
      reads this, queue, inProgress.Values, waiters, handedOut
    {
      && (forall p :: p in queue ==> L.Inv(p.State()))
      && (forall p :: p in inProgress.Values ==> L.Inv(p.State()))
      && (forall p :: p in waiters ==> L.Inv(p.State()))
      && (forall p :: p in handedOut ==> L.Inv(p.State()) && p.transferBegun)
      // the backlog holds each request once, and none that was already handed out
      && (forall i, j :: 0 <= i < j < |queue| ==> queue[i] != queue[j])
      && (forall p :: p in queue ==> p !in handedOut)
      // requests are registered under their own ids
      && (forall id :: id in inProgress ==> inProgress[id].request.id == id)
      // a blocked caller's request is the one registered under its id
      && (forall p :: p in waiters ==>
            p.request.id in inProgress && inProgress[p.request.id] == p && !p.stage.Threw?)
      // a registered request has a blocked caller, or its caller threw and left it registered
      && (forall id :: id in inProgress ==> inProgress[id] in waiters || inProgress[id].stage.Threw?)
    }

    constructor ()
      ensures Valid()
      ensures queue == [] && inProgress == map[] && !hasItems
      ensures waiters == {} && handedOut == {}
    {
      queue, inProgress, hasItems := [], map[], false;
      waiters, handedOut := {}, {};
    }

    /** The first half of `QueueAndWait`, up to the caller's wait: the new request goes to the back of
        the backlog and is registered under its id. The backlog append comes first, so when the id is
        already registered the request stays in the backlog although registering it fails. */
    method QueueAndWait(request: RequestMessage) returns (r: Result<PendingRequest, QueueError>)
      requires Valid()
      modifies this
      ensures Valid()
      ensures |queue| == |old(queue)| + 1 && queue[..|old(queue)|] == old(queue)
      ensures fresh(queue[|old(queue)|]) && queue[|old(queue)|].State() == L.Initial(request)
      ensures handedOut == old(handedOut)
      ensures request.id in old(inProgress) ==>
        r == Err(DuplicateId(request.id)) &&
        inProgress == old(inProgress) && waiters == old(waiters) && hasItems == old(hasItems)
      ensures request.id !in old(inProgress) ==>
        r == Ok(queue[|old(queue)|]) &&
        inProgress == old(inProgress)[request.id := r.value] &&
        waiters == old(waiters) + {r.value} && hasItems
    {
      var pending := new PendingRequest(request);
      L.InitialInv(request);
      Enqueue(pending);
      if request.id in inProgress {
        return Err(DuplicateId(request.id));
      }
      Register(pending);
      return Ok(pending);
    }

    /** Appends a request that is neither queued nor handed out to the backlog. */
    method Enqueue(pending: PendingRequest)
      requires Valid() && L.Inv(pending.State()) && pending !in queue && pending !in handedOut
      modifies this
      ensures Valid()
      ensures queue == old(queue) + [pending]
      ensures inProgress == old(inProgress) && hasItems == old(hasItems)
      ensures waiters == old(waiters) && handedOut == old(handedOut)
    {
      queue := queue + [pending];
    }

    /** Registers a fresh caller's request under its id, which no request holds yet, and signals
        that the backlog has items. */
    method Register(pending: PendingRequest)
      requires Valid() && L.Inv(pending.State()) && pending.stage.Queued?
      requires pending.request.id !in inProgress
      modifies this
      ensures Valid()
      ensures inProgress == old(inProgress)[pending.request.id := pending]
      ensures waiters == old(waiters) + {pending} && hasItems
      ensures queue == old(queue) && handedOut == old(handedOut)
    {
      inProgress := inProgress[pending.request.id := pending];
      waiters := waiters + {pending};
      hasItems := true;
    }

    /** The caller's wait returned true. */
    method WaitSignalled(p: PendingRequest)
      requires Valid() && p in waiters
      requires p.signalled && L.Waiting(p.State())
      modifies p
      ensures Valid()
      ensures p.State() == L.OnSignalled(old(p.State()))
    {
      L.StepKeepsInv(p.State(), L.Signalled);
      p.WaitSignalled();
    }

    /** The caller's token was cancelled during the first wait. Unclaimed, the request is marked
        completed and the cancellation rethrown, skipping the removal from `inProgress`; claimed, the
        cancellation is swallowed and the caller waits on. */
    method WaitCancelled(p: PendingRequest) returns (rethrown: bool)
      requires Valid() && p in waiters && p.stage.Queued?
      modifies this, p
      ensures Valid()
      ensures rethrown <==> !old(p.transferBegun)
      ensures p.State() == L.OnCancelled(old(p.State()))
      ensures queue == old(queue) && inProgress == old(inProgress) && hasItems == old(hasItems)
      ensures handedOut == old(handedOut)
      ensures waiters == if rethrown then old(waiters) - {p} else old(waiters)
    {
      L.StepKeepsInv(p.State(), L.Cancelled);
      rethrown := p.WaitCancelled();
      if rethrown {
        waiters := waiters - {p};
      }
    }

    /** The queue-wait timeout expired during the first wait. */
    method QueueWaitExpired(p: PendingRequest)
      requires Valid() && p in waiters && p.stage.Queued?
      modifies p
      ensures Valid()
      ensures p.State() == L.OnQueueTimeout(old(p.State()))
    {
      L.StepKeepsInv(p.State(), L.QueueTimeout);
      p.QueueWaitExpired();
    }

    /** The processing timeout expired during the second wait. */
    method ProcessingWaitExpired(p: PendingRequest)
      requires Valid() && p in waiters && p.stage.AwaitingTransfer?
      modifies p
      ensures Valid()
      ensures p.State() == L.OnProcessingTimeout(old(p.State()))
    {
      L.StepKeepsInv(p.State(), L.ProcessingTimeout);
      p.ProcessingWaitExpired();
    }

    /** The second half of `QueueAndWait`, after a wait that returned: the id is unregistered and the
        response read. */
    method Collect(p: PendingRequest) returns (response: ResponseMessage)
      requires Valid() && p in waiters && p.stage.Returned?
      modifies this
      ensures Valid()
      ensures old(p.response) == Some(response) && response.id == p.request.id
      ensures inProgress == old(inProgress) - {p.request.id}
      ensures waiters == old(waiters) - {p}
      ensures queue == old(queue) && handedOut == old(handedOut) && hasItems == old(hasItems)
    {
      inProgress := inProgress - {p.request.id};
      waiters := waiters - {p};
      response := p.response.value;
    }

    /** `IsEmpty`: the backlog, abandoned entries included, holds nothing. */
    method IsEmpty() returns (empty: bool)
      ensures empty <==> |queue| == 0
    {
      return |queue| == 0;
    }

    /** `Count`: the number of backlog entries, abandoned entries included. */
    method Count() returns (n: nat)
      ensures n == |queue|
    {
      return |queue|;
    }

    /** Removes and returns the oldest backlog entry, or null when there is none. */
    method TakeFirst() returns (first: PendingRequest?)
      requires Valid()
      modifies this
      ensures Valid()
      ensures old(queue) == [] ==> first == null && queue == []
      ensures old(queue) != [] ==> first == old(queue)[0] && queue == old(queue)[1..]
      ensures inProgress == old(inProgress) && hasItems == old(hasItems)
      ensures waiters == old(waiters) && handedOut == old(handedOut)
    {
      if |queue| == 0 {
        return null;
      }
      first := queue[0];
      queue := queue[1..];
    }

    /** Claims a request just taken from the backlog; an abandoned one yields nothing. */
    method HandOut(p: PendingRequest) returns (r: Option<RequestMessage>, ghost claimed: PendingRequest?)
      requires Valid() && L.Inv(p.State()) && p !in handedOut && p !in queue
      modifies this, p
      ensures Valid()
      ensures p.State() == L.BeginTransfer(old(p.State())).0
      ensures r == if old(p.completed) then None else Some(p.request)
      ensures claimed == if old(p.completed) then null else p
      ensures handedOut == if old(p.completed) then old(handedOut) else old(handedOut) + {p}
      ensures queue == old(queue) && inProgress == old(inProgress) && hasItems == old(hasItems)
      ensures waiters == old(waiters)
    {
      L.StepKeepsInv(p.State(), L.Claim);
      var ok := p.BeginTransfer();
      if ok {
        MarkHandedOut(p);
        return Some(p.request), p;
      }
      return None, null;
    }

    /** Records a claimed request that is no longer in the backlog as handed out. */
    method MarkHandedOut(p: PendingRequest)
      requires Valid() && L.Inv(p.State()) && p.transferBegun && p !in queue
      modifies this
      ensures Valid()
      ensures handedOut == old(handedOut) + {p}
      ensures queue == old(queue) && inProgress == old(inProgress) && hasItems == old(hasItems)
      ensures waiters == old(waiters)
    {
      handedOut := handedOut + {p};
    }

    /** `DequeueAsync` up to its wait. The oldest entry is taken and claimed; an entry whose caller
        gave up is dropped and yields nothing even if later entries remain. With an empty backlog the
        dequeuer must wait for items. */
    method DequeueAsync() returns (step: DequeueStep, ghost claimed: PendingRequest?)
      requires Valid()
      modifies this, if queue == [] then {} else {queue[0]}
      ensures Valid()
      ensures old(queue) == [] ==> step == MustWait && queue == [] && handedOut == old(handedOut)
      ensures old(queue) != [] ==>
        queue == old(queue)[1..] &&
        old(queue[0]).State() == L.BeginTransfer(old(queue[0].State())).0 &&
        step == Dequeued(if old(queue[0].completed) then None else Some(old(queue[0]).request))
      ensures claimed == if old(queue) != [] && !old(queue[0].completed) then old(queue[0]) else null
      ensures claimed != null ==> claimed !in old(handedOut) && handedOut == old(handedOut) + {claimed}
      ensures claimed == null ==> handedOut == old(handedOut)
      ensures inProgress == old(inProgress) && hasItems == old(hasItems) && waiters == old(waiters)
    {
      var first := TakeFirst();
      if first == null {
        return MustWait, null;
      }
      var r;
      r, claimed := HandOut(first);
      step := Dequeued(r);
    }

    /** `DequeueAsync` after its wait for items ended, whichever way it ended: the signal is reset and
        the backlog checked once more. */
    method ResumeDequeue() returns (r: Option<RequestMessage>, ghost claimed: PendingRequest?)
      requires Valid()
      modifies this, if queue == [] then {} else {queue[0]}
      ensures Valid()
      ensures !hasItems
      ensures old(queue) == [] ==> r == None && queue == [] && claimed == null
      ensures old(queue) != [] ==>
        queue == old(queue)[1..] &&
        old(queue[0]).State() == L.BeginTransfer(old(queue[0].State())).0 &&
        r == (if old(queue[0].completed) then None else Some(old(queue[0]).request))
      ensures claimed == if old(queue) != [] && !old(queue[0].completed) then old(queue[0]) else null
      ensures claimed != null ==> claimed !in old(handedOut) && handedOut == old(handedOut) + {claimed}
      ensures claimed == null ==> handedOut == old(handedOut)
      ensures inProgress == old(inProgress) && waiters == old(waiters)
    {
      hasItems := false;
      var first := TakeFirst();
      if first == null {
        return None, null;
      }
      r, claimed := HandOut(first);
    }

    /** `ApplyResponse`: a response reaches the request registered under its id; a missing response
        or an unknown id changes nothing. */
    method ApplyResponse(response: Option<ResponseMessage>)
      requires Valid()
      modifies if response.Some? && response.value.id in inProgress then {inProgress[response.value.id]} else {}
      ensures Valid()
      ensures response.Some? && response.value.id in inProgress ==>
        inProgress[response.value.id].State() ==
          L.SetResponse(old(inProgress[response.value.id].State()), response.value)
      ensures response.None? || response.value.id !in inProgress ==> unchanged(inProgress.Values)
    {
      if response == None {
        return;
      }
      var id := response.value.id;
      if id in inProgress {
        var p := inProgress[id];
        L.StepKeepsInv(p.State(), L.Respond(response.value));
        p.SetResponse(response.value);
      }
    }
  }

  /** A dequeuer claims the request, then the caller's token is cancelled: the wait goes on, the
      answer arrives and is returned, and a second answer for the same id changes nothing. */
  method CancelAfterClaimScenario(request: RequestMessage, answer: ResponseMessage, late: ResponseMessage)
    requires answer.id == request.id && late.id == request.id
  {
    var q := new PendingRequestQueue();
    var r := q.QueueAndWait(request);
    var p := r.value;
    var step, claimed := q.DequeueAsync();
    assert step == Dequeued(Some(request)) && claimed == p && p in q.handedOut;
    var rethrown := q.WaitCancelled(p);
    assert !rethrown && p.stage == L.AwaitingTransfer(true);
    q.ApplyResponse(Some(answer));
    q.WaitSignalled(p);
    var got := q.Collect(p);
    assert got == answer;
    q.ApplyResponse(Some(late));
    assert p.response == Some(answer);
  }

  /** Nobody collects the request before the queue-wait timeout: the caller gets the "not collected"
      timeout response, and a late dequeuer drops the abandoned entry instead of handing it out. */
  method QueueTimeoutScenario(request: RequestMessage)
  {
    var q := new PendingRequestQueue();
    var r := q.QueueAndWait(request);
    var p := r.value;
    q.QueueWaitExpired(p);
    var got := q.Collect(p);
    assert got == TimeoutResponse(request, NotCollected);
    var step, claimed := q.DequeueAsync();
    assert step == Dequeued(None) && q.queue == [] && claimed == null && p !in q.handedOut;
  }
}
