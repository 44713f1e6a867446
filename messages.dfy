/** The request and response messages that travel between a caller and a service, and the endpoint
    descriptor that says where a request goes. */
module Messages {

  /** A URI, reduced to what routing looks at: its scheme, and the rest as one opaque string. */
  datatype Uri = Uri(scheme: string, rest: string)

  /** The destination of a request. The two timeouts are durations in milliseconds. */
  datatype ServiceEndPoint = ServiceEndPoint(
    baseUri: Uri,
    remoteThumbprint: string,
    pollingRequestQueueTimeout: nat,
    pollingRequestMaximumMessageProcessingTimeout: nat)

  datatype RequestMessage = RequestMessage(
    id: string,
    destination: ServiceEndPoint,
    serviceName: string,
    methodName: string,
    params: seq<string>)

  /** Why a polling request timed out: nobody collected it, or it was collected but not answered. */
  datatype TimeoutReason = NotCollected | CollectedButNoResponse

  datatype ServerError =
    | TimedOut(reason: TimeoutReason, allowed: nat)
    | Failed(message: string)

  datatype Outcome = Success(value: string) | Error(error: ServerError)

  datatype ResponseMessage = ResponseMessage(id: string, outcome: Outcome)

  /** `ResponseMessage.FromException(request, new TimeoutException(...))`: an error response
      correlated with the request, naming the timeout that expired. */
  function TimeoutResponse(request: RequestMessage, reason: TimeoutReason): (r: ResponseMessage)
    ensures r.id == request.id
    ensures r.outcome.Error? && r.outcome.error.TimedOut? && r.outcome.error.reason == reason
    ensures r.outcome.error.allowed ==
      if reason == NotCollected then request.destination.pollingRequestQueueTimeout
      else request.destination.pollingRequestMaximumMessageProcessingTimeout
  {
    var allowed := match reason
      case NotCollected => request.destination.pollingRequestQueueTimeout
      case CollectedButNoResponse => request.destination.pollingRequestMaximumMessageProcessingTimeout;
    ResponseMessage(request.id, Error(TimedOut(reason, allowed)))
  }
}
