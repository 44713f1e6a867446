/** The runtime facade: the per-destination queues, the trust set and its effect on live listeners,
    outgoing-call routing with the response cache in front of it, and the settings handed to the
    listeners (route table, friendly page). */
module Runtime {
  import opened Wrappers
  import opened Text
  import opened Messages
  import ServiceModel

  const DefaultFriendlyHtmlPageContent: string := "<html><body><p>Hello!</p></body></html>"

  /** The listeners the runtime has started; only the TLS listener can disconnect a thumbprint. */
  datatype ListenerKind = SecureListener | SecureWebSocketListener

  /** One `Disconnect(thumbprint)` call on the listener at index `listener`, and whether the
      thumbprint was still trusted when the call was made. */
  datatype Disconnection = Disconnection(listener: nat, thumbprint: string, stillTrusted: bool)

  datatype UnauthorizedClientConnectResponse = BlockConnection | TrustAndAllowConnection

  /** The two ways out of the process an outgoing call can take. */
  datatype TransportKind = Https | Poll

  /** How an outgoing call was answered. */
  datatype Delivery = FromCache | Direct | Polled(queue: ServiceModel.PendingRequestQueue)

  datatype SendError = UnknownEndpointType(scheme: string)

  /** `ToDictionary` refusing a key it has already added. */
  datatype HeaderError = DuplicateKey(key: string)

  /** What the response cache keys a call on: everything about the call except its id. */
  datatype CacheKey = CacheKey(destination: ServiceEndPoint, serviceName: string, methodName: string, params: seq<string>)

  function KeyOf(request: RequestMessage): CacheKey {
    CacheKey(request.destination, request.serviceName, request.methodName, request.params)
  }

  /** The `switch` on the lower-cased scheme: exactly "https" and "poll", in any case, are known. */
  function SelectTransport(scheme: string): (r: Option<TransportKind>)
    ensures r == Some(Https) <==> EqualsIgnoringCase(scheme, "https")
    ensures r == Some(Poll) <==> EqualsIgnoringCase(scheme, "poll")
    ensures r == None <==> !EqualsIgnoringCase(scheme, "https") && !EqualsIgnoringCase(scheme, "poll")
  {
    ToLowerMatchesIgnoringCase(scheme, "https");
    ToLowerMatchesIgnoringCase(scheme, "poll");
    var lowered := ToLower(scheme);
    if lowered == "https" then Some(Https)
    else if lowered == "poll" then Some(Poll)
    else None
  }

  /** The calls a disconnect of `thumbprint` makes on the first `n` listeners, in list order. */
  function DisconnectsFor(listeners: seq<ListenerKind>, n: nat, thumbprint: string, stillTrusted: bool): seq<Disconnection>
    requires n <= |listeners|
  {
    if n == 0 then []
    else
      DisconnectsFor(listeners, n - 1, thumbprint, stillTrusted) +
      (if listeners[n - 1].SecureListener? then [Disconnection(n - 1, thumbprint, stillTrusted)] else [])
  }

  /** The disconnect calls reach every TLS listener once each, in list order, and nothing else. */
  lemma {:induction false} DisconnectsReachSecureListenersOnly(listeners: seq<ListenerKind>, n: nat, thumbprint: string, stillTrusted: bool)
    requires n <= |listeners|
    ensures forall d :: d in DisconnectsFor(listeners, n, thumbprint, stillTrusted) ==>
      d.listener < n && listeners[d.listener].SecureListener? &&
      d.thumbprint == thumbprint && d.stillTrusted == stillTrusted
    ensures forall i :: 0 <= i < n && listeners[i].SecureListener? ==>
      Disconnection(i, thumbprint, stillTrusted) in DisconnectsFor(listeners, n, thumbprint, stillTrusted)
    ensures forall j, k :: 0 <= j < k < |DisconnectsFor(listeners, n, thumbprint, stillTrusted)| ==>
      DisconnectsFor(listeners, n, thumbprint, stillTrusted)[j].listener <
      DisconnectsFor(listeners, n, thumbprint, stillTrusted)[k].listener
  {
    if n > 0 {
      var prefix := DisconnectsFor(listeners, n - 1, thumbprint, stillTrusted);
      var last := if listeners[n - 1].SecureListener? then [Disconnection(n - 1, thumbprint, stillTrusted)] else [];
      var all := DisconnectsFor(listeners, n, thumbprint, stillTrusted);
      assert all == prefix + last;
      DisconnectsReachSecureListenersOnly(listeners, n - 1, thumbprint, stillTrusted);
      forall j, k | 0 <= j < k < |all|
        ensures all[j].listener < all[k].listener
      {
        if k >= |prefix| {
          assert all[k] == last[0] && all[j] == prefix[j];
        } else {
          assert all[j] == prefix[j] && all[k] == prefix[k];
        }
      }
    }
  }

  /** The disconnect calls for several thumbprints, one thumbprint after the other. */
  function DisconnectsForAll(listeners: seq<ListenerKind>, thumbprints: seq<string>, stillTrusted: bool): seq<Disconnection> {
    if thumbprints == [] then []
    else
      DisconnectsForAll(listeners, thumbprints[..|thumbprints| - 1], stillTrusted) +
      DisconnectsFor(listeners, |listeners|, thumbprints[|thumbprints| - 1], stillTrusted)
  }

  /** One more thumbprint taken from those left: its disconnects follow the earlier ones, and it
      moves from the ones left to the ones done. */
  lemma DisconnectOneMore(listeners: seq<ListenerKind>, order: seq<string>, t: string, all: set<string>, left: set<string>)
    requires t in left && left <= all && (set u | u in order) == all - left
    ensures DisconnectsForAll(listeners, order + [t], false) ==
      DisconnectsForAll(listeners, order, false) + DisconnectsFor(listeners, |listeners|, t, false)
    ensures (set u | u in order + [t]) == all - (left - {t})
    ensures |left - {t}| == |left| - 1
  {
    assert (order + [t])[..|order|] == order;
    assert (set u | u in order + [t]) == (set u | u in order) + {t};
  }

  /** Disconnecting several thumbprints disconnects each of them, and only them, on every TLS listener. */
  lemma {:induction false} DisconnectsForAllCoversEach(listeners: seq<ListenerKind>, thumbprints: seq<string>, stillTrusted: bool)
    ensures forall d :: d in DisconnectsForAll(listeners, thumbprints, stillTrusted) ==>
      d.thumbprint in thumbprints && d.listener < |listeners| &&
      listeners[d.listener].SecureListener? && d.stillTrusted == stillTrusted
    ensures forall t, i :: t in thumbprints && 0 <= i < |listeners| && listeners[i].SecureListener? ==>
      Disconnection(i, t, stillTrusted) in DisconnectsForAll(listeners, thumbprints, stillTrusted)
  {
    if thumbprints != [] {
      var init := thumbprints[..|thumbprints| - 1];
      var last := thumbprints[|thumbprints| - 1];
      DisconnectsForAllCoversEach(listeners, init, stillTrusted);
      DisconnectsReachSecureListenersOnly(listeners, |listeners|, last, stillTrusted);
      assert forall t :: t in thumbprints ==> t in init || t == last;
      assert forall t :: t in init ==> t in thumbprints;
    }
  }

  predicate DistinctKeys(pairs: seq<(string, string)>) {
    forall i, j :: 0 <= i < j < |pairs| ==> pairs[i].0 != pairs[j].0
  }

  /** `headers.ToDictionary(x => x.Key, x => x.Value)`: the pairs added in order, failing at the
      first key already added. */
  function ToDictionary(pairs: seq<(string, string)>): (r: Result<map<string, string>, HeaderError>)
    ensures r.Ok? <==> DistinctKeys(pairs)
    ensures r.Ok? ==> r.value.Keys == set i | 0 <= i < |pairs| :: pairs[i].0
    ensures r.Ok? ==> forall i :: 0 <= i < |pairs| ==> r.value[pairs[i].0] == pairs[i].1
    ensures r.Err? ==> exists i :: 0 <= i < |pairs| && pairs[i].0 == r.error.key
  {
    if pairs == [] then Ok(map[])
    else
      var init := pairs[..|pairs| - 1];
      var (key, value) := pairs[|pairs| - 1];
      var prefix := ToDictionary(init);
      if prefix.Err? then
        assert pairs[..|pairs| - 1] == init;
        prefix
      else if key in prefix.value then
        Err(DuplicateKey(key))
      else
        assert forall i :: 0 <= i < |init| ==> pairs[i] == init[i];
        Ok(prefix.value[key := value])
  }

  class HalibutRuntime {
    var queues: map<Uri, ServiceModel.PendingRequestQueue>
    var listeners: seq<ListenerKind>
    /** The trust provider's set of trusted thumbprints. */
    var trusted: set<string>
    /** Every `Disconnect` call made on a listener, oldest first. */
    var disconnects: seq<Disconnection>
    var routeTable: map<Uri, ServiceEndPoint>
    var friendlyHtmlPageContent: string
    var friendlyHtmlPageHeaders: map<string, string>
    var responseCache: map<CacheKey, ResponseMessage>

    /** Every disconnect was made on a TLS listener the runtime started. */
    ghost predicate Valid()
      reads this
    {
      forall d :: d in disconnects ==> d.listener < |listeners| && listeners[d.listener].SecureListener?
    }

    constructor (trusted: set<string>)
      ensures Valid()
      ensures this.trusted == trusted
      ensures queues == map[] && listeners == [] && disconnects == [] && routeTable == map[]
      ensures friendlyHtmlPageContent == DefaultFriendlyHtmlPageContent && friendlyHtmlPageHeaders == map[]
      ensures responseCache == map[]
    {
      queues, listeners, this.trusted, disconnects := map[], [], trusted, [];
      routeTable := map[];
      friendlyHtmlPageContent, friendlyHtmlPageHeaders := DefaultFriendlyHtmlPageContent, map[];
      responseCache := map[];
    }

    /** The queue of a destination, created on first use and the same one ever after. */
    method GetQueue(target: Uri) returns (q: ServiceModel.PendingRequestQueue)
      modifies this
      ensures target in old(queues) ==> q == old(queues)[target] && queues == old(queues)
      ensures target !in old(queues) ==>
        fresh(q) && q.Valid() && q.queue == [] && q.inProgress == map[] &&
        queues == old(queues)[target := q]
      ensures listeners == old(listeners) && trusted == old(trusted) && disconnects == old(disconnects)
      ensures routeTable == old(routeTable) && responseCache == old(responseCache)
      ensures friendlyHtmlPageContent == old(friendlyHtmlPageContent)
      ensures friendlyHtmlPageHeaders == old(friendlyHtmlPageHeaders)
    {
      if target in queues {
        return queues[target];
      }
      q := new ServiceModel.PendingRequestQueue();
      queues := queues[target := q];
    }

    /** The bookkeeping of `Listen` and `ListenWebSocket`: the started listener joins the list. */
    method AddListener(kind: ListenerKind)
      requires Valid()
      modifies this
      ensures Valid()
      ensures listeners == old(listeners) + [kind]
      ensures queues == old(queues) && trusted == old(trusted) && disconnects == old(disconnects)
      ensures routeTable == old(routeTable) && responseCache == old(responseCache)
      ensures friendlyHtmlPageContent == old(friendlyHtmlPageContent)
      ensures friendlyHtmlPageHeaders == old(friendlyHtmlPageHeaders)
    {
      listeners := listeners + [kind];
    }

    /** `SendOutgoingRequestSynchronouslyAsync`. `cacheable` is the response cache's verdict on the
        called method, and `exchanged` the response the chosen exchange produced: the direct TLS
        exchange for "https", the destination queue's `QueueAndWait` for "poll". */
    method SendOutgoingRequest(request: RequestMessage, cacheable: bool, exchanged: ResponseMessage)
      returns (r: Result<(ResponseMessage, Delivery), SendError>)
      modifies this
      ensures cacheable && KeyOf(request) in old(responseCache) ==>
        r == Ok((old(responseCache)[KeyOf(request)], FromCache)) &&
        responseCache == old(responseCache) && queues == old(queues)
      ensures !(cacheable && KeyOf(request) in old(responseCache)) ==>
        match SelectTransport(request.destination.baseUri.scheme)
        case Some(Https) =>
          r == Ok((exchanged, Direct)) && queues == old(queues) &&
          responseCache == (if cacheable then old(responseCache)[KeyOf(request) := exchanged] else old(responseCache))
        case Some(Poll) =>
          request.destination.baseUri in queues &&
          r == Ok((exchanged, Polled(queues[request.destination.baseUri]))) &&
          (request.destination.baseUri in old(queues) ==> queues == old(queues)) &&
          (request.destination.baseUri !in old(queues) ==>
            var q := queues[request.destination.baseUri];
            fresh(q) && q.Valid() && q.queue == [] && q.inProgress == map[] &&
            queues == old(queues)[request.destination.baseUri := q]) &&
          responseCache == (if cacheable then old(responseCache)[KeyOf(request) := exchanged] else old(responseCache))
        case None =>
          r == Err(UnknownEndpointType(request.destination.baseUri.scheme)) &&
          responseCache == old(responseCache) && queues == old(queues)
      ensures listeners == old(listeners) && trusted == old(trusted) && disconnects == old(disconnects)
      ensures routeTable == old(routeTable)
      ensures friendlyHtmlPageContent == old(friendlyHtmlPageContent)
      ensures friendlyHtmlPageHeaders == old(friendlyHtmlPageHeaders)
    {
      var key := KeyOf(request);
      if cacheable && key in responseCache {
        return Ok((responseCache[key], FromCache));
      }
      var delivery;
      match SelectTransport(request.destination.baseUri.scheme) {
        case Some(Https) =>
          delivery := Direct;
        case Some(Poll) =>
          var q := GetQueue(request.destination.baseUri);
          delivery := Polled(q);
        case None =>
          return Err(UnknownEndpointType(request.destination.baseUri.scheme));
      }
      if cacheable {
        responseCache := responseCache[key := exchanged];
      }
      return Ok((exchanged, delivery));
    }

    method Trust(thumbprint: string)
      requires Valid()
      modifies this
      ensures Valid()
      ensures trusted == old(trusted) + {thumbprint}
      ensures disconnects == old(disconnects) && listeners == old(listeners) && queues == old(queues)
      ensures routeTable == old(routeTable) && responseCache == old(responseCache)
      ensures friendlyHtmlPageContent == old(friendlyHtmlPageContent)
      ensures friendlyHtmlPageHeaders == old(friendlyHtmlPageHeaders)
    {
      trusted := trusted + {thumbprint};
    }

    method IsTrusted(thumbprint: string) returns (b: bool)
      ensures b <==> thumbprint in trusted
    {
      return thumbprint in trusted;
    }

    /** Asks every TLS listener, in list order, to drop the connections of `thumbprint`. */
    method DisconnectFromAllListeners(thumbprint: string)
      requires Valid()
      modifies this
      ensures Valid()
      ensures disconnects == old(disconnects) + DisconnectsFor(listeners, |listeners|, thumbprint, thumbprint in trusted)
      ensures trusted == old(trusted) && listeners == old(listeners) && queues == old(queues)
      ensures routeTable == old(routeTable) && responseCache == old(responseCache)
      ensures friendlyHtmlPageContent == old(friendlyHtmlPageContent)
      ensures friendlyHtmlPageHeaders == old(friendlyHtmlPageHeaders)
    {
      var stillTrusted := thumbprint in trusted;
      for i := 0 to |listeners|
        invariant listeners == old(listeners) && trusted == old(trusted) && Valid()
        invariant disconnects == old(disconnects) + DisconnectsFor(listeners, i, thumbprint, stillTrusted)
        invariant queues == old(queues) && routeTable == old(routeTable) && responseCache == old(responseCache)
        invariant friendlyHtmlPageContent == old(friendlyHtmlPageContent)
        invariant friendlyHtmlPageHeaders == old(friendlyHtmlPageHeaders)
      {
        if listeners[i].SecureListener? {
          disconnects := disconnects + [Disconnection(i, thumbprint, stillTrusted)];
        }
      }
    }

    /** Drops the thumbprint's live connections first, and only then its trust: the disconnects are
        made while the thumbprint is still trusted. */
    method RemoveTrust(thumbprint: string)
      requires Valid()
      modifies this
      ensures Valid()
      ensures trusted == old(trusted) - {thumbprint}
      ensures disconnects == old(disconnects) + DisconnectsFor(listeners, |listeners|, thumbprint, thumbprint in old(trusted))
      ensures listeners == old(listeners) && queues == old(queues)
      ensures routeTable == old(routeTable) && responseCache == old(responseCache)
      ensures friendlyHtmlPageContent == old(friendlyHtmlPageContent)
      ensures friendlyHtmlPageHeaders == old(friendlyHtmlPageHeaders)
    {
      DisconnectFromAllListeners(thumbprint);
      trusted := trusted - {thumbprint};
    }

    /** Disconnects each thumbprint of a collection, in the collection's order, which a set leaves
        open: `order` is the order taken. */
    method DisconnectEachFromAllListeners(thumbprints: set<string>) returns (ghost order: seq<string>)
      requires Valid()
      requires forall t :: t in thumbprints ==> t !in trusted
      modifies this
      ensures Valid()
      ensures (set t | t in order) == thumbprints && |order| == |thumbprints|
      ensures disconnects == old(disconnects) + DisconnectsForAll(listeners, order, false)
      ensures trusted == old(trusted) && listeners == old(listeners) && queues == old(queues)
      ensures routeTable == old(routeTable) && responseCache == old(responseCache)
      ensures friendlyHtmlPageContent == old(friendlyHtmlPageContent)
      ensures friendlyHtmlPageHeaders == old(friendlyHtmlPageHeaders)
    {
      order := [];
      var left := thumbprints;
      while left != {}
        invariant Valid() && trusted == old(trusted) && listeners == old(listeners)
        invariant left <= thumbprints
        invariant (set t | t in order) == thumbprints - left && |order| + |left| == |thumbprints|
        invariant disconnects == old(disconnects) + DisconnectsForAll(listeners, order, false)
        invariant queues == old(queues) && routeTable == old(routeTable) && responseCache == old(responseCache)
        invariant friendlyHtmlPageContent == old(friendlyHtmlPageContent)
        invariant friendlyHtmlPageHeaders == old(friendlyHtmlPageHeaders)
        decreases |left|
      {
        var t :| t in left;
        DisconnectFromAllListeners(t);
        DisconnectOneMore(listeners, order, t, thumbprints, left);
        order := order + [t];
        left := left - {t};
      }
    }

    /** Replaces the trust set, then disconnects every thumbprint the replacement revoked: each
        revoked thumbprint, in some order, on every TLS listener, after its trust is gone. */
    method TrustOnly(thumbprints: seq<string>) returns (ghost revokedOrder: seq<string>)
      requires Valid()
      modifies this
      ensures Valid()
      ensures trusted == set t | t in thumbprints
      ensures (set t | t in revokedOrder) == old(trusted) - trusted && |revokedOrder| == |old(trusted) - trusted|
      ensures disconnects == old(disconnects) + DisconnectsForAll(listeners, revokedOrder, false)
      ensures listeners == old(listeners) && queues == old(queues)
      ensures routeTable == old(routeTable) && responseCache == old(responseCache)
      ensures friendlyHtmlPageContent == old(friendlyHtmlPageContent)
      ensures friendlyHtmlPageHeaders == old(friendlyHtmlPageHeaders)
    {
      var replacement := set t | t in thumbprints;
      var revoked := trusted - replacement;
      trusted := replacement;
      revokedOrder := DisconnectEachFromAllListeners(revoked);
    }

    /** `BaseUri` keeps its first route; later ones are ignored. */
    method Route(to: ServiceEndPoint, via: ServiceEndPoint)
      modifies this
      ensures to.baseUri in old(routeTable) ==> routeTable == old(routeTable)
      ensures to.baseUri !in old(routeTable) ==> routeTable == old(routeTable)[to.baseUri := via]
      ensures queues == old(queues) && listeners == old(listeners) && trusted == old(trusted)
      ensures disconnects == old(disconnects) && responseCache == old(responseCache)
      ensures friendlyHtmlPageContent == old(friendlyHtmlPageContent)
      ensures friendlyHtmlPageHeaders == old(friendlyHtmlPageHeaders)
    {
      if to.baseUri !in routeTable {
        routeTable := routeTable[to.baseUri := via];
      }
    }

    /** A missing page restores the default one. */
    method SetFriendlyHtmlPageContent(html: Option<string>)
      modifies this
      ensures friendlyHtmlPageContent == html.GetOr(DefaultFriendlyHtmlPageContent)
      ensures queues == old(queues) && listeners == old(listeners) && trusted == old(trusted)
      ensures disconnects == old(disconnects) && responseCache == old(responseCache)
      ensures routeTable == old(routeTable) && friendlyHtmlPageHeaders == old(friendlyHtmlPageHeaders)
    {
      friendlyHtmlPageContent := html.GetOr(DefaultFriendlyHtmlPageContent);
    }

    /** Missing headers become no headers; headers naming a key twice are refused and the previous
        headers stay. */
    method SetFriendlyHtmlPageHeaders(headers: Option<seq<(string, string)>>) returns (r: Result<(), HeaderError>)
      modifies this
      ensures headers.None? ==> r.Ok? && friendlyHtmlPageHeaders == map[]
      ensures headers.Some? ==> (r.Ok? <==> DistinctKeys(headers.value))
      ensures headers.Some? && r.Ok? ==> friendlyHtmlPageHeaders == ToDictionary(headers.value).value
      ensures r.Err? ==> friendlyHtmlPageHeaders == old(friendlyHtmlPageHeaders)
      ensures queues == old(queues) && listeners == old(listeners) && trusted == old(trusted)
      ensures disconnects == old(disconnects) && responseCache == old(responseCache)
      ensures routeTable == old(routeTable) && friendlyHtmlPageContent == old(friendlyHtmlPageContent)
    {
      if headers.None? {
        friendlyHtmlPageHeaders := map[];
        return Ok(());
      }
      var d := ToDictionary(headers.value);
      if d.Err? {
        return Err(d.error);
      }
      friendlyHtmlPageHeaders := d.value;
      return Ok(());
    }

    /** An unknown client is blocked unless the callback, when there is one, says to trust it; a
        client the callback trusts joins the trust set. */
    method HandleUnauthorizedClientConnect(clientName: string, thumbprint: string, callback: Option<UnauthorizedClientConnectResponse>)
      returns (result: UnauthorizedClientConnectResponse)
      requires Valid()
      modifies this
      ensures Valid()
      ensures result == callback.GetOr(BlockConnection)
      ensures trusted == if result == TrustAndAllowConnection then old(trusted) + {thumbprint} else old(trusted)
      ensures disconnects == old(disconnects) && listeners == old(listeners) && queues == old(queues)
      ensures routeTable == old(routeTable) && responseCache == old(responseCache)
      ensures friendlyHtmlPageContent == old(friendlyHtmlPageContent)
      ensures friendlyHtmlPageHeaders == old(friendlyHtmlPageHeaders)
    {
      result := callback.GetOr(BlockConnection);
      if result == TrustAndAllowConnection {
        Trust(thumbprint);
      }
    }
  }

  /** A revoked thumbprint is disconnected on every TLS listener, and the disconnects come after its
      trust is gone; removing one thumbprint, by contrast, disconnects it while it is still trusted. */
  lemma RevocationOrder(listeners: seq<ListenerKind>, revokedOrder: seq<string>, thumbprint: string)
    ensures forall d :: d in DisconnectsForAll(listeners, revokedOrder, false) ==> !d.stillTrusted && d.thumbprint in revokedOrder
    ensures forall t, i :: t in revokedOrder && 0 <= i < |listeners| && listeners[i].SecureListener? ==>
      Disconnection(i, t, false) in DisconnectsForAll(listeners, revokedOrder, false)
    ensures forall d :: d in DisconnectsFor(listeners, |listeners|, thumbprint, true) ==> d.stillTrusted
  {
    DisconnectsForAllCoversEach(listeners, revokedOrder, false);
    DisconnectsReachSecureListenersOnly(listeners, |listeners|, thumbprint, true);
  }

  /** The queue of a destination is created once: asking again returns the same queue. */
  method SameQueueScenario(target: Uri)
  {
    var runtime := new HalibutRuntime({});
    var first := runtime.GetQueue(target);
    var again := runtime.GetQueue(target);
    assert first == again && |runtime.queues| == 1;
  }
}
