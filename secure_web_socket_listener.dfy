/** The WebSocket listener: which incoming HTTP requests reach the message-exchange protocol, what a
    browser gets instead, and what happens to the stream and the response afterwards. */
module Transport {
  import opened Wrappers
  import opened Text

  /** A server or client certificate, reduced to what the listener looks at. */
  datatype Certificate = Certificate(hasPrivateKey: bool, thumbprint: string)

  datatype CertificateError = NoCertificate | NoPrivateKey

  /** The check the listener's constructor makes on its server certificate. */
  function EnsureCertificateIsValidForListening(certificate: Option<Certificate>): (r: Result<(), CertificateError>)
    ensures r.Ok? <==> certificate.Some? && certificate.value.hasPrivateKey
    ensures r == Err(NoCertificate) <==> certificate.None?
  {
    if certificate.None? then Err(NoCertificate)
    else if !certificate.value.hasPrivateKey then Err(NoPrivateKey)
    else Ok(())
  }

  /** `Authorize`: a presented client certificate must have a trusted thumbprint; a client that
      presents no certificate at all is let through. */
  function Authorize(clientThumbprint: Option<string>, trusted: set<string>): (authorized: bool)
    ensures authorized <==> forall t :: clientThumbprint == Some(t) ==> t in trusted
  {
    match clientThumbprint
    case None => true
    case Some(thumbprint) => thumbprint in trusted
  }

  /** Authorization refuses exactly the clients that present an untrusted certificate. */
  lemma AuthorizeRefusesOnlyUntrusted(clientThumbprint: Option<string>, trusted: set<string>)
    ensures !Authorize(clientThumbprint, trusted) <==>
      exists t :: clientThumbprint == Some(t) && t !in trusted
  {
    if !Authorize(clientThumbprint, trusted) {
      assert clientThumbprint == Some(clientThumbprint.value);
    }
  }

  /** The first text message read from the upgraded stream, or the read throwing. */
  datatype FirstMessage = Text(text: Option<string>) | ReadFailed

  /** What the client of one WebSocket request does, as the listener observes it. */
  datatype WebSocketSession = WebSocketSession(
    upgradeFails: bool,               // `AcceptWebSocketAsync` throws
    firstMessage: FirstMessage,
    clientThumbprint: Option<string>, // the client certificate's thumbprint, if one was presented
    protocolFails: bool)              // the protocol handler throws

  /** `Substring(0, length)`, which throws when the string is shorter. */
  function Substring(s: string, length: nat): (r: Option<string>)
    ensures r.Some? <==> length <= |s|
    ensures r.Some? ==> |r.value| == length && r.value == s[..length]
  {
    if length <= |s| then Some(s[..length]) else None
  }

  /** What became of a session: whether the protocol handler was started with the stream, whether
      the stream was kept open for it, and whether the `finally` block disposed the stream and
      closed the response. */
  datatype Disposition = Disposition(protocolRan: bool, kept: bool, streamDisposed: bool, responseClosed: bool)

  /** A session reaches the protocol when the upgrade succeeds, the first message starts with "MX"
      and the client is authorized. */
  predicate Admitted(session: WebSocketSession, trusted: set<string>) {
    && !session.upgradeFails
    && session.firstMessage.Text?
    && session.firstMessage.text.Some?
    && |session.firstMessage.text.value| >= 2
    && session.firstMessage.text.value[..2] == "MX"
    && Authorize(session.clientThumbprint, trusted)
  }

  /** `ExecuteRequest`: `keepConnection` starts false and becomes true only once the protocol handler
      has returned; the `finally` block disposes the stream, if one was opened, and closes the
      response whenever it is still false. Each early `return` and each caught exception leaves the
      `try` block through `break`. */
  method ExecuteRequest(session: WebSocketSession, trusted: set<string>) returns (d: Disposition)
    ensures d.protocolRan <==> Admitted(session, trusted)
    ensures d.kept <==> Admitted(session, trusted) && !session.protocolFails
    ensures d.responseClosed <==> !d.kept
    ensures d.streamDisposed <==> !d.kept && !session.upgradeFails
  {
    var keepConnection := false;
    var streamOpened := false;
    var protocolRan := false;
    label try: {
      if session.upgradeFails {
        break try;
      }
      streamOpened := true;
      if session.firstMessage.ReadFailed? {
        break try;
      }
      var request := session.firstMessage.text;
      if request.None? || request.value == "" {
        break try;
      }
      var prefix := Substring(request.value, 2);
      if prefix.None? {
        break try;
      }
      if prefix.value != "MX" {
        break try;
      }
      if Authorize(session.clientThumbprint, trusted) {
        protocolRan := true;
        if session.protocolFails {
          break try;
        }
        keepConnection := true;
      }
    }
    var streamDisposed, responseClosed := false, false;
    if !keepConnection {
      streamDisposed := streamOpened;
      responseClosed := true;
    }
    return Disposition(protocolRan, keepConnection, streamDisposed, responseClosed);
  }

  /** A client that presents no certificate passes authorization, so its "MX" session reaches the
      protocol even when nothing at all is trusted. */
  lemma AnonymousClientReachesProtocol(session: WebSocketSession)
    requires !session.upgradeFails && session.clientThumbprint.None?
    requires session.firstMessage.Text? && session.firstMessage.text.Some?
    requires |session.firstMessage.text.value| >= 2 && session.firstMessage.text.value[..2] == "MX"
    ensures Admitted(session, {})
  {
  }

  /** The text `SendFriendlyHtmlPage` writes, line by line, each line followed by the platform line
      break, announcing `contentLength` as the length of the page. */
  function PageText(contentLength: nat, message: string, nl: LineBreak): string {
    LengthHeaderPrefix(nl) + ShowNat(contentLength) + PageAfterLength(message, nl)
  }

  /** The status and header lines before the announced length. */
  function LengthHeaderPrefix(nl: LineBreak): string {
    "HTTP/1.0 200 OK" + nl.Chars() + "Content-Type: text/html; charset=utf-8" + nl.Chars() + "Content-Length: "
  }

  /** The end of the length header's line, the empty line, the content line and a final empty line. */
  function PageAfterLength(message: string, nl: LineBreak): string {
    nl.Chars() + nl.Chars() + message + nl.Chars() + nl.Chars()
  }

  /** What a client reads as the announced length: the digits after the length header's name. */
  function ReadContentLength(page: string, nl: LineBreak): (n: Option<nat>)
  {
    var prefix := LengthHeaderPrefix(nl);
    if |page| < |prefix| || page[..|prefix|] != prefix then None
    else
      var digits := DigitRun(page[|prefix|..]);
      if digits == [] then None else Some(DecimalValue(digits))
  }

  /** A client reads back exactly the length the page announces. */
  lemma PageAnnouncesLength(contentLength: nat, message: string, nl: LineBreak)
    ensures ReadContentLength(PageText(contentLength, message, nl), nl) == Some(contentLength)
  {
    var prefix := LengthHeaderPrefix(nl);
    var digits := ShowNat(contentLength);
    var rest := PageAfterLength(message, nl);
    Parts(PageText(contentLength, message, nl), prefix, digits, rest);
    DigitRunOfDigits(digits, rest);
    DecimalValueOfShowNat(contentLength);
  }

  /** `SendFriendlyHtmlPage` as written: the announced length is `message.Length`, the number of
      UTF-16 code units of the message. */
  function FriendlyHtmlPage(message: string, nl: LineBreak): string {
    PageText(Utf16Length(message), message, nl)
  }

  /** The page as evidently intended: the announced length is the number of bytes the UTF-8 writer
      produces for the message. */
  function FriendlyHtmlPageInBytes(message: string, nl: LineBreak): string {
    PageText(Utf8Length(message), message, nl)
  }

  /** The page as written announces the message's length in UTF-16 code units. */
  lemma FriendlyHtmlPageAnnouncesUtf16Length(message: string, nl: LineBreak)
    ensures ReadContentLength(FriendlyHtmlPage(message, nl), nl) == Some(Utf16Length(message))
  {
    PageAnnouncesLength(Utf16Length(message), message, nl);
  }

  /** The corrected page announces the message's length in UTF-8 bytes. */
  lemma FriendlyHtmlPageInBytesAnnouncesUtf8Length(message: string, nl: LineBreak)
    ensures ReadContentLength(FriendlyHtmlPageInBytes(message, nl), nl) == Some(Utf8Length(message))
  {
    PageAnnouncesLength(Utf8Length(message), message, nl);
  }

  /** For ASCII content, the default page included, the two agree. */
  lemma AsciiPageIsExact(message: string, nl: LineBreak)
    requires IsAscii(message)
    ensures FriendlyHtmlPage(message, nl) == FriendlyHtmlPageInBytes(message, nl)
  {
    AsciiLengthsAgree(message);
  }

  /** With one non-ASCII character the page as written announces fewer bytes than the message has. */
  lemma NonAsciiPageUndercounts(nl: LineBreak)
    ensures ReadContentLength(FriendlyHtmlPage("é", nl), nl) == Some(1)
    ensures Utf8Length("é") == 2
  {
    FriendlyHtmlPageAnnouncesUtf16Length("é", nl);
    TwoByteChar('é');
    assert "é" == ['é'];
  }

  /** One context the accept loop gets, or `GetContextAsync` throwing. A browser request carries the
      page content `getFriendlyHtmlPageContent()` returned for it, which the runtime's
      `SetFriendlyHtmlPageContent` may have changed since the previous request. */
  datatype Incoming =
    | GetContextFailed
    | BrowserRequest(content: string, pageWriteFails: bool)   // `IsWebSocketRequest` is false
    | WebSocketRequest(session: WebSocketSession)

  /** What the accept loop did with one incoming context. */
  datatype Handling =
    | Logged                                   // the exception was logged and the loop went on
    | ServedPage(text: string, responseClosed: bool)
    | Session(disposition: Disposition)

  /** How `Accept` handles one context. A browser gets the friendly page built from the content
      current at that request; a failed page write skips `Response.Close`. */
  ghost function Handle(incoming: Incoming, nl: LineBreak, trusted: set<string>): Handling {
    match incoming
    case GetContextFailed => Logged
    case BrowserRequest(content, pageWriteFails) =>
      if pageWriteFails then Logged else ServedPage(FriendlyHtmlPage(content, nl), true)
    case WebSocketRequest(session) =>
      var admitted := Admitted(session, trusted);
      var kept := admitted && !session.protocolFails;
      Session(Disposition(admitted, kept, !kept && !session.upgradeFails, !kept))
  }

  /** One turn of the accept loop: a WebSocket request goes to `ExecuteRequest`, any other request
      gets the friendly page. */
  method HandleOne(incoming: Incoming, nl: LineBreak, trusted: set<string>) returns (h: Handling)
    ensures h == Handle(incoming, nl, trusted)
  {
    match incoming {
      case GetContextFailed =>
        h := Logged;
      case BrowserRequest(content, pageWriteFails) =>
        h := if pageWriteFails then Logged else ServedPage(FriendlyHtmlPage(content, nl), true);
      case WebSocketRequest(session) =>
        var d := ExecuteRequest(session, trusted);
        h := Session(d);
    }
  }

  /** The accept loop over the contexts that arrive before it is cancelled; each browser gets the
      friendly page as `SendFriendlyHtmlPage` writes it, its length counted in UTF-16 code units. */
  method Accept(incoming: seq<Incoming>, nl: LineBreak, trusted: set<string>) returns (handled: seq<Handling>)
    ensures |handled| == |incoming|
    ensures forall i :: 0 <= i < |incoming| ==> handled[i] == Handle(incoming[i], nl, trusted)
  {
    handled := [];
    var i := 0;
    while i < |incoming|
      invariant 0 <= i <= |incoming| && |handled| == i
      invariant forall k :: 0 <= k < i ==> handled[k] == Handle(incoming[k], nl, trusted)
    {
      var h := HandleOne(incoming[i], nl, trusted);
      handled := handled + [h];
      i := i + 1;
    }
  }

  /** A request that is not a WebSocket request never reaches the protocol; the page is served and
      the response closed unless writing the page failed, and the page announces the length of the
      content current at that request in UTF-16 code units, which is its length in bytes only for
      ASCII text. */
  lemma BrowsersNeverReachProtocol(incoming: Incoming, nl: LineBreak, trusted: set<string>)
    requires incoming.BrowserRequest?
    ensures !Handle(incoming, nl, trusted).Session?
    ensures !incoming.pageWriteFails ==>
      var h := Handle(incoming, nl, trusted);
      h.ServedPage? && h.responseClosed && ReadContentLength(h.text, nl) == Some(Utf16Length(incoming.content))
    ensures !incoming.pageWriteFails && IsAscii(incoming.content) ==>
      ReadContentLength(Handle(incoming, nl, trusted).text, nl) == Some(Utf8Length(incoming.content))
  {
    FriendlyHtmlPageAnnouncesUtf16Length(incoming.content, nl);
    if IsAscii(incoming.content) {
      AsciiLengthsAgree(incoming.content);
    }
  }

  /** Only an admitted session whose protocol handler returned keeps its stream; every other session
      has its response closed. */
  lemma OnlyCompletedSessionsStayOpen(session: WebSocketSession, nl: LineBreak, trusted: set<string>)
    ensures Handle(WebSocketRequest(session), nl, trusted).disposition.kept
      <==> Admitted(session, trusted) && !session.protocolFails
    ensures !Handle(WebSocketRequest(session), nl, trusted).disposition.kept ==>
      Handle(WebSocketRequest(session), nl, trusted).disposition.responseClosed
  {
  }
}
