/**
 * How a Rebus message travels in an SQS message: the batch entry the transport builds for an
 * outgoing message, and the transport message it extracts from a received body.
 */
module Wire {
  import opened Wrappers
  import opened Messages
  import Base64
  import Envelope
  import Platform
  import Provider
  import Timing
  import Grouping

  /** `GetBody`: `Convert.ToBase64String` of the body bytes. */
  function GetBody(bytes: seq<Base64.byte>): string
  {
    Base64.Encode(bytes)
  }

  /** `GetBodyBytes`: `Convert.FromBase64String`, which refuses text that is not base64. */
  function GetBodyBytes(text: string): (r: Result<seq<Base64.byte>, TransportError>)
    ensures r.Failure? ==> r.error == MalformedBody(text)
  {
    match Base64.Decode(text)
    case None => Failure(MalformedBody(text))
    case Some(bytes) => Success(bytes)
  }

  /** The body bytes come back from their text byte for byte. */
  lemma GetBodyBytesOfGetBody(bytes: seq<Base64.byte>)
    ensures GetBodyBytes(GetBody(bytes)) == Success(bytes)
  {
    Base64.DecodeEncode(bytes);
  }

  /**
   * The batch entry for one outgoing message: its id is the message-id header (a message without
   * one is an error), its body the serialised envelope of the headers and the base64 body, and its
   * delay the native delay of the message, if any.
   */
  function BuildEntry(m: Grouping.OutgoingMessage, options: TransportOptions, now: int, lib: Platform.Library): (r: Result<Provider.BatchEntry, TransportError>)
    ensures var headers := m.transportMessage.headers;
      && (r.Failure? <==> MessageIdHeader !in headers || Timing.DelaySecondsAsWritten(options, headers, now, lib).Failure?)
      && (MessageIdHeader !in headers ==> r == Failure(MissingHeader(MessageIdHeader)))
      && (r.Success? ==> r.value.id == headers[MessageIdHeader] && r.value.delaySeconds == Timing.DelaySecondsAsWritten(options, headers, now, lib).value)
  {
    var headers := m.transportMessage.headers;
    if MessageIdHeader !in headers then Failure(MissingHeader(MessageIdHeader))
    else
      var envelope := Envelope.Create(Some(headers), Some(GetBody(m.transportMessage.body)));
      var text := Platform.Serialize(lib, envelope);
      var delaySeconds :- Timing.DelaySecondsAsWritten(options, headers, now, lib);
      Success(Provider.BatchEntry(headers[MessageIdHeader], text, delaySeconds))
  }

  /**
   * A message deferred natively to an instant already past is sent with a negative delay: the
   * entry carries the deferral's distance into the past, in whole seconds, below zero.
   */
  lemma PastDeferralIsSentWithNegativeDelay(m: Grouping.OutgoingMessage, now: int, ago: int, lib: Platform.Library)
    requires MessageIdHeader in m.transportMessage.headers && DeferredUntilHeader in m.transportMessage.headers
    requires ago >= 1
    requires lib.parseInstant(m.transportMessage.headers[DeferredUntilHeader]) == Some(now - ago * Timing.TicksPerSecond)
    ensures BuildEntry(m, DefaultOptions, now, lib).Success?
    ensures BuildEntry(m, DefaultOptions, now, lib).value.delaySeconds == Some(-ago)
  {
  }

  /**
   * `ExtractTransportMessageFrom`: the envelope read from the body, then its body text decoded and
   * its headers taken. The body is decoded while the constructor's arguments are evaluated, so a
   * null or malformed body is found before null headers.
   */
  function ExtractTransportMessage(text: string, lib: Platform.Library): (r: Result<TransportMessage, TransportError>)
    ensures r.Success? ==>
      var envelope := Platform.Deserialize(lib, text);
      envelope.Some? && envelope.value.headers == Some(r.value.headers) && envelope.value.body.Some? &&
      Base64.Decode(envelope.value.body.value) == Some(r.value.body)
  {
    match Platform.Deserialize(lib, text)
    case None => Failure(MalformedEnvelope(text))
    case Some(envelope) =>
      if envelope.body.None? then Failure(MissingEnvelopeField(Envelope.BodyProperty))
      else
        var bytes :- GetBodyBytes(envelope.body.value);
        if envelope.headers.None? then Failure(MissingEnvelopeField(Envelope.HeadersProperty))
        else Success(TransportMessage(envelope.headers.value, bytes))
  }

  /**
   * What is sent is what is received: the body of the entry built for a message gives back that
   * message, headers and body bytes unchanged.
   */
  lemma ExtractTransportMessageOfEntry(m: Grouping.OutgoingMessage, options: TransportOptions, now: int, lib: Platform.Library)
    requires Platform.JsonTextRoundTrips(lib)
    requires BuildEntry(m, options, now, lib).Success?
    ensures ExtractTransportMessage(BuildEntry(m, options, now, lib).value.messageBody, lib) == Success(m.transportMessage)
  {
    var headers := m.transportMessage.headers;
    var envelope := Envelope.Create(Some(headers), Some(GetBody(m.transportMessage.body)));
    Platform.DeserializeSerialize(lib, envelope);
    GetBodyBytesOfGetBody(m.transportMessage.body);
  }
}
