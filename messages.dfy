/**
 * The transport-neutral message of the bus (headers and a byte body), the header names the
 * transport reads, its options record and the errors it raises.
 */
module Messages {
  import Base64
  import Provider

  type Headers = map<string, string>

  /** Rebus's `TransportMessage`: headers and an opaque byte body. */
  datatype TransportMessage = TransportMessage(headers: Headers, body: seq<Base64.byte>)

  // The header names, as Rebus's `Headers` class defines them (that class is not part of this model).
  const MessageIdHeader: string := "rbs2-msg-id"
  const DeferredUntilHeader: string := "rbs2-deferred-until"
  const TimeToBeReceivedHeader: string := "rbs2-time-to-be-received"
  const SentTimeHeader: string := "rbs2-senttime"

  /** The system attribute in which SQS records when it accepted the message (ms since the Unix epoch). */
  const SentTimestampAttribute: string := "SentTimestamp"

  /** `AmazonSQSTransportOptions`: the settings the transport reads. */
  datatype TransportOptions = TransportOptions(
    receiveWaitTimeSeconds: int,
    useNativeDeferredMessages: bool,
    createQueues: bool)

  /** The options a transport gets when none are given. */
  const DefaultOptions: TransportOptions := TransportOptions(1, true, true)

  /** The exceptions the transport raises, by cause. */
  datatype TransportError =
    | InvalidInputQueueAddress(address: string)             // ArgumentException from the constructor
    | NoInputQueue                                          // InvalidOperationException: receive without an address
    | QueueUrlNotInitialized                                // InvalidOperationException: receive before Initialize
    | QueueUrlNotFound(address: string, httpStatusCode: int) // RebusApplicationException from the URL lookup
    | InputQueueUrlUnavailable(inputQueue: string, cause: TransportError) // RebusApplicationException from Initialize
    | MissingHeader(header: string)                         // KeyNotFoundException from `headers[...]`
    | MalformedHeader(header: string, text: string)         // FormatException from a date, duration or number parser
    | TimestampOutOfRange(milliseconds: int)                // ArgumentOutOfRangeException from `AddMilliseconds`
    | MalformedEnvelope(text: string)                       // the JSON reader or mapper refused the message body
    | MissingEnvelopeField(field: string)                   // ArgumentNullException: the envelope held a null field
    | MalformedBody(text: string)                           // FormatException from `Convert.FromBase64String`
    | NoPathSegment(address: string)                        // IndexOutOfRangeException: a URL with no path segment
    | BatchFailed(failures: seq<Provider.BatchResultError>) // AggregateException, one inner error per rejected entry
}
