# Rebus.AmazonSQS transport, modelled in Dafny

This project models the core of the Amazon SQS transport for the Rebus service bus, and proves
properties of the model.

**Sending.** `Send` buffers each outgoing message in the transaction context. The buffer is made
on the first send, together with the single commit callback that flushes it. On commit,
`SendOutgoingMessages` does the following:

- groups the buffer by destination address;
- builds one batch entry per message. The entry id is the message-id header, the body is the JSON
  envelope of the headers and the base64 body, and the delay is the native delay of a deferred
  message;
- resolves each destination to a queue URL through a cache keyed by the lower-cased address;
- sends one batch request per destination;
- raises one error carrying every entry the service rejected.

**Receiving.** `Receive` polls for a single message. It then does the following:

- registers a peek-lock renewal task, a completion callback (dispose the task, then delete the
  message) and an abort callback (dispose the task, then make the message visible again at once);
- reads the message;
- deletes an expired message at once and returns nothing;
- starts the renewal task only for a message it returns.

**Helpers.** The model also covers:

- the constructor's check of the input queue address;
- the queue name taken from a queue URL;
- the time-to-be-received expiry rules;
- the envelope record and its null-defaulting constructors;
- base64 as `Convert.ToBase64String`/`FromBase64String` apply it (RFC 4648, section 4);
- the `Batch` chunking iterator;
- the `ConnectionInfo.CreateFromString` connection-string parser of the test project.

**Modules, in dependency order:**

| Module | What it holds |
|---|---|
| `Wrappers` | `Option`, `Result` |
| `Base64` | base64 encoding and decoding |
| `Messages` | the transport message, header names, options and errors |
| `Envelope` | `AmazonSqsTransportMessage` and its JSON layout |
| `Platform` | the .NET library calls, as function values |
| `Provider` | the SQS client, as an append-only call log with oracle answers |
| `Timing` | delays, expiry and peek-lock arithmetic |
| `Addressing` | address check, queue name, URL resolution |
| `Grouping` | `GroupBy` destination |
| `Wire` | batch entry and transport-message extraction |
| `Flush` | the flush as a function of the buffer |
| `Batching` | `Batch` |
| `ConnectionStrings` | the connection-string parser |
| `Context` | the outgoing buffer, the renewal task and the transaction context, as classes |
| `SqsTransport` | the transport class, whose methods are proved against the functions above |

**Conventions.**

- Time is .NET ticks (100 ns).
- A `Result` failure stands for the exception the source throws.
- The SQS service is the call log of `Provider.QueueClient`:
  - a queue-URL lookup and a batch request get their answers from oracle functions fixed when the
    client is made;
  - the outcome of a receive poll is a parameter of `Receive`.
- The URI check, the date, duration and number parsers and the JSON text layer are fields of
  `Platform.Library`. A property that needs one of them to behave (the JSON reader reads back what
  the writer wrote; every absolute URI has a scheme) takes that as a precondition.

## Model

| member | source | states |
|---|---|---|
| Addressing.CheckInputQueueAddress | Rebus.AmazonSQS/AmazonSQS/AmazonSqsTransport.cs:57-65 | The address is refused exactly when it is present, contains '/' and is not a well-formed absolute URI. The error names the address. Any other address, or none, is accepted unchanged. |
| Addressing.LeadingSlashIsRefused | Rebus.AmazonSQS.Tests/QueueAddressHandlingTests.cs:87-93 | An address starting with '/' (such as "/inputqueue") is refused, given that absolute URIs have schemes. |
| SqsTransport.Transport.Create | Rebus.AmazonSQS/AmazonSQS/AmazonSqsTransport.cs:49-73 | Construction fails exactly when the address check fails, with the invalid-address error. Otherwise it gives a fresh transport with that address, the given options (the default options when none are given), the given library and client, the default peek-lock duration of 5 minutes and renewal interval of 4 minutes, an empty URL cache and no input queue URL. |
| SqsTransport.Transport.constructor | Rebus.AmazonSQS/AmazonSQS/AmazonSqsTransport.cs:42-73 | A new transport has a 5-minute peek lock renewed every 4 minutes, no queue URL, an empty cache, and options defaulting to `DefaultOptions`. |
| Addressing.Segments | Rebus.AmazonSQS/AmazonSQS/AmazonSqsTransport.cs:483-485 | `Uri.Segments`: the segments concatenate back to the path. Each is non-empty with '/' at most at its end, and every segment but the last ends with '/'. |
| Addressing.QueueNameFromAddress | Rebus.AmazonSQS/AmazonSQS/AmazonSqsTransport.cs:479-486 | A string that is not a well-formed absolute URI is its own queue name. For a URI, the call fails exactly when the URI's path is empty, with the no-path-segment error. Otherwise the name is the non-empty end of the path that starts just after the last '/' that is not the path's final character, and holds no other '/'. |
| Addressing.LastSegmentOfPath | Rebus.AmazonSQS/AmazonSQS/AmazonSqsTransport.cs:483-485 | The last of `Uri.Segments` of a non-empty path is the end of the path after its last non-final '/'. |
| Addressing.QueueNameOfQueueUrl | Rebus.AmazonSQS/AmazonSQS/AmazonSqsTransport.cs:479-486 | A queue URL `scheme://host/account/name` names the queue `name`. |
| Addressing.UriPathAfterHost | Rebus.AmazonSQS/AmazonSQS/AmazonSqsTransport.cs:483 | The path of `scheme://host/path` is `/path`. |
| Addressing.Resolve | Rebus.AmazonSQS/AmazonSQS/AmazonSqsTransport.cs:451-477 | The cache is keyed by the lower-cased address: a cached URL is returned with no call. A resolved URL is cached under that key, and a failure leaves the cache unchanged. At most one lookup, of the address itself, is made. |
| Addressing.ResolveKeepsCache | Rebus.AmazonSQS/AmazonSQS/AmazonSqsTransport.cs:453 | Resolution keeps every cache key lower-case and never changes or drops a cached URL. |
| Addressing.AbsoluteUrlResolvesToItself | Rebus.AmazonSQS/AmazonSQS/AmazonSqsTransport.cs:455-458 | An uncached well-formed absolute URL resolves to itself with no provider call. |
| Addressing.NameIsLookedUp | Rebus.AmazonSQS/AmazonSQS/AmazonSqsTransport.cs:460-472 | An uncached queue name makes exactly one lookup. It resolves exactly when the status is 200, and only then is the cache changed. |
| Addressing.ResolutionIgnoresCase | Rebus.AmazonSQS/AmazonSQS/AmazonSqsTransport.cs:453 | Once one address has resolved, an address differing only in letter case resolves to the same URL with no call and no cache change. |
| SqsTransport.Transport.GetDestinationQueueUrlByName | Rebus.AmazonSQS/AmazonSQS/AmazonSqsTransport.cs:451-477 | The method returns the URL, updates the cache and the call log as `Addressing.Resolve` says, keeps the cache valid, and takes the context's client only when it calls the provider. |
| SqsTransport.Transport.GetClientFromTransactionContext | Rebus.AmazonSQS/AmazonSQS/AmazonSqsTransport.cs:423-431 | The context gets a client item, and a client-disposal callback only when it had no client before. Nothing else in the context changes. |
| SqsTransport.Transport.Initialize | Rebus.AmazonSQS/AmazonSQS/AmazonSqsTransport.cs:89-94 | With no address, nothing changes. Otherwise the input address is resolved, in a context of its own. A success sets the queue URL; a failure is an error naming the input queue and leaves the URL unchanged. |
| SqsTransport.Transport.InitializeWithPeekLock | Rebus.AmazonSQS/AmazonSQS/AmazonSqsTransport.cs:78-84 | Sets the peek-lock duration and a renewal interval that is shorter than a positive duration, then behaves as `Initialize`. |
| Timing.RenewalInterval | Rebus.AmazonSQS/AmazonSQS/AmazonSqsTransport.cs:81 | Four fifths of the peek-lock duration, rounded toward zero: for a duration d ≥ 0, 5·interval ≤ 4·d < 5·interval + 5, and the mirror image for d < 0. So it is non-negative and below a positive duration, and 4 minutes for the default 5. |
| Timing.CeilingSeconds | Rebus.AmazonSQS/AmazonSQS/AmazonSqsTransport.cs:292 | `Math.Ceiling` of a span in seconds: the least whole number of seconds not below the span, for either sign. |
| Timing.WholeSeconds | Rebus.AmazonSQS/AmazonSQS/AmazonSqsTransport.cs:365-367 | `(int)TotalSeconds`: whole seconds rounded toward zero, for either sign. |
| Timing.DelaySecondsAsWritten | Rebus.AmazonSQS/AmazonSQS/AmazonSqsTransport.cs:283-295 | No delay exactly when native deferral is off or the deferred-until header is absent. An error exactly when that header cannot be parsed. Else the ceiling in seconds of the time left until the deferral, whatever its sign. |
| Timing.PastDeferralGivesNegativeDelay | Rebus.AmazonSQS/AmazonSQS/AmazonSqsTransport.cs:292 | A deferral one day in the past gives a delay of -86400 seconds. |
| Timing.DelaySeconds | Rebus.AmazonSQS.Tests/Bugs/DelayForMessagesCanBeCalculatedLessThanZero.cs:32-42 | The corrected delay is never negative, and otherwise agrees with the delay as written in success, failure and absence. |
| Timing.DelaySecondsAgreesForFutureDeferral | Rebus.AmazonSQS/AmazonSQS/AmazonSqsTransport.cs:290-294 | For a deferral that is not in the past, the corrected delay equals the delay as written. |
| Timing.DelaySecondsOfPastDeferralIsZero | Rebus.AmazonSQS.Tests/Bugs/DelayForMessagesCanBeCalculatedLessThanZero.cs:32-42 | A deferral in the past gets delay 0. |
| Timing.TimeFromUnixTimestamp | Rebus.AmazonSQS/AmazonSQS/AmazonSqsTransport.cs:415-421 | The epoch plus the parsed milliseconds. It is an error exactly when the text does not parse or the instant is outside the range of `DateTime`. |
| Timing.MessageIsExpired | Rebus.AmazonSQS/AmazonSQS/AmazonSqsTransport.cs:371-383 | A message without a time-to-be-received header never expires. |
| Timing.MessageIsExpiredMeansRule | Rebus.AmazonSQS/AmazonSQS/AmazonSqsTransport.cs:371-413 | When all time values parse, the message is expired iff it has a time to be received and strictly more than that has passed since the Rebus sent time or since the SQS sent timestamp, whichever are present. |
| Timing.RebusSentTimeDecidesFirst | Rebus.AmazonSQS/AmazonSQS/AmazonSqsTransport.cs:379-380 | A message expired by its Rebus sent time is expired whatever its SQS timestamp holds, even text that cannot be parsed. |
| Timing.ExpiryIsMonotone | Rebus.AmazonSQS/AmazonSQS/AmazonSqsTransport.cs:385-413 | An expired message stays expired at any later time. |
| Envelope.Create | Rebus.AmazonSQS/AmazonSQS/AmazonSqsTransportMessage.cs:18-22 | Null headers become an empty map and a null body the empty string. Other arguments are kept; neither field is null. |
| Envelope.CreateEmpty | Rebus.AmazonSQS/AmazonSQS/AmazonSqsTransportMessage.cs:14-16 | The parameterless constructor gives empty headers and an empty body. |
| Envelope.ToJson | Rebus.AmazonSQS/AmazonSQS/AmazonSqsTransportMessage.cs:8-12 | The JSON object has exactly the properties "headers" and "body", holding the two fields. |
| Envelope.FromJson | Rebus.AmazonSQS/AmazonSQS/AmazonSqsTransportMessageSerializer.cs:12-16 | Only an object is read. An object with neither property gives the empty envelope, because properties are assigned after the parameterless constructor. |
| Envelope.FromJsonToJson | Rebus.AmazonSQS/AmazonSQS/AmazonSqsTransportMessageSerializer.cs:7-16 | Reading back the JSON layout of an envelope gives the same envelope, null fields included. |
| Platform.DeserializeSerialize | Rebus.AmazonSQS/AmazonSQS/AmazonSqsTransportMessageSerializer.cs:7-16 | With a JSON text layer that reads back what it wrote, an envelope survives `Serialize` and then `Deserialize`. |
| Platform.ToLowerInvariant | Rebus.AmazonSQS/AmazonSQS/AmazonSqsTransport.cs:453 | Same length. Each ASCII capital becomes its small letter; every other character is kept. |
| Platform.ToLowerInvariantIdempotent | Rebus.AmazonSQS/AmazonSQS/AmazonSqsTransport.cs:453 | Lower-casing twice is lower-casing once. |
| Base64.Encode | Rebus.AmazonSQS/AmazonSQS/AmazonSqsTransport.cs:439-442 | Empty exactly for no bytes, and only alphabet and pad characters. |
| Base64.DecodeEncode | Rebus.AmazonSQS/AmazonSQS/AmazonSqsTransport.cs:439-447 | Decoding the base64 text of any byte sequence gives the same bytes back. |
| Base64.DecodeGroupsOfEncode | Rebus.AmazonSQS/AmazonSQS/AmazonSqsTransport.cs:439-447 | The group-by-group decoder inverts the encoder, by induction over three-byte groups. |
| Base64.ValueOfCharOf | Rebus.AmazonSQS/AmazonSQS/AmazonSqsTransport.cs:441 | Every alphabet character decodes to the 6-bit value it encodes. |
| Wire.GetBodyBytes | Rebus.AmazonSQS/AmazonSQS/AmazonSqsTransport.cs:444-447 | Text that is not base64 is an error naming the text. |
| Wire.GetBodyBytesOfGetBody | Rebus.AmazonSQS/AmazonSQS/AmazonSqsTransport.cs:439-447 | `GetBodyBytes(GetBody(b)) == b` for every body. |
| Wire.BuildEntry | Rebus.AmazonSQS/AmazonSQS/AmazonSqsTransport.cs:250-265 | An entry fails exactly when the message-id header is missing (that error first) or the delay fails. The id is the message-id header, and the delay is the native delay as the source computes it, which is negative for a past deferral. |
| Wire.PastDeferralIsSentWithNegativeDelay | Rebus.AmazonSQS/AmazonSQS/AmazonSqsTransport.cs:258-263 | A message natively deferred to a whole number of seconds in the past is sent with that number, negated, as its delay. |
| Wire.ExtractTransportMessage | Rebus.AmazonSQS/AmazonSQS/AmazonSqsTransport.cs:433-437 | A message read from a body has the envelope's headers and the base64-decoding of its body. |
| Wire.ExtractTransportMessageOfEntry | Rebus.AmazonSQS/AmazonSQS/AmazonSqsTransport.cs:250-256 | What is sent is what is received: the body of a message's entry gives back that message's headers and body bytes. |
| Grouping.GroupByDestination | Rebus.AmazonSQS/AmazonSQS/AmazonSqsTransport.cs:239-241 | The groups together hold exactly the buffered messages, as a multiset. |
| Grouping.GroupByDestinationMeaning | Rebus.AmazonSQS/AmazonSQS/AmazonSqsTransport.cs:239-241 | One group per distinct destination, in order of first occurrence. Each holds exactly the messages to its destination, in buffer order. |
| Grouping.GroupsArePartition | Rebus.AmazonSQS/AmazonSQS/AmazonSqsTransport.cs:239-241 | Every group is non-empty, no two share a key, and every message lies in the group of its destination. |
| Grouping.AddToGroupsKeepsGroupsOf | Rebus.AmazonSQS/AmazonSQS/AmazonSqsTransport.cs:239-241 | Adding a message to a grouping gives the grouping of the buffer with that message appended. |
| Grouping.AddToGroupsAddsOne | Rebus.AmazonSQS/AmazonSQS/AmazonSqsTransport.cs:239-241 | Adding a message adds exactly that message to the groups' contents. |
| Flush.BuildAllMeaning | Rebus.AmazonSQS/AmazonSQS/AmazonSqsTransport.cs:247-267 | The entries succeed with one entry per message, in order, or fail with the error of the first message that fails. |
| Flush.BuildEntriesMeaning | Rebus.AmazonSQS/AmazonSQS/AmazonSqsTransport.cs:247-267 | The same, for `Wire.BuildEntry`. |
| Flush.SendGroup | Rebus.AmazonSQS/AmazonSQS/AmazonSqsTransport.cs:245-279 | A group sends at most one batch. When it raises nothing, that batch holds the group's entries. |
| Flush.SendGroupMeaning | Rebus.AmazonSQS/AmazonSQS/AmazonSqsTransport.cs:247-278 | A group sends a batch exactly when its entries build and its destination resolves. The batch goes to the resolved URL, which the cache then holds under the lower-cased destination, and holds the entries. The group raises nothing exactly when its batch was sent and the provider rejected none of its entries. Rejections raise the batch error holding them; a failing entry raises its error with no call, and a failing lookup raises its error and leaves the cache unchanged. |
| Flush.SendGroupKeepsCache | Rebus.AmazonSQS/AmazonSQS/AmazonSqsTransport.cs:269 | Sending a group keeps cache keys lower-case and cached URLs unchanged. |
| Flush.SendGroupCalls | Rebus.AmazonSQS/AmazonSQS/AmazonSqsTransport.cs:269-271 | A group only looks up a URL and sends a batch. |
| Flush.SendEachKeepsCache | Rebus.AmazonSQS/AmazonSQS/AmazonSqsTransport.cs:243-280 | Groups sent one after another by a cache-keeping sender keep the cache. |
| Flush.SendEachCalls | Rebus.AmazonSQS/AmazonSQS/AmazonSqsTransport.cs:243-280 | Groups sent one after another make only lookups and at most one batch each. |
| Flush.SendEachSendsEachGroup | Rebus.AmazonSQS/AmazonSQS/AmazonSqsTransport.cs:243-280 | When nothing fails, the i-th batch sent carries the i-th group's entries. |
| Flush.SendEachSendsToCachedUrls | Rebus.AmazonSQS/AmazonSQS/AmazonSqsTransport.cs:243-280 | When nothing fails, the i-th batch went to the URL that the final cache holds for the i-th group's lower-cased destination. |
| Flush.SendEachRaisesNothing | Rebus.AmazonSQS/AmazonSQS/AmazonSqsTransport.cs:243-280 | Groups sent one after another raise nothing exactly when each group raises nothing when sent from the cache the groups before it left. |
| Flush.SendEachSplit | Rebus.AmazonSQS/AmazonSQS/AmazonSqsTransport.cs:243-280 | Sending the groups is sending the first k groups and then the rest from the cache those left. The calls are concatenated and the first error wins. |
| Flush.SendEachAt | Rebus.AmazonSQS/AmazonSQS/AmazonSqsTransport.cs:243-280 | The calls of group i sit between those of the groups before and after it. It is sent from the cache the groups before it left, and the groups after it from the cache it leaves. |
| Flush.EveryGroupIsSent | Rebus.AmazonSQS/AmazonSQS/AmazonSqsTransport.cs:243-280 | Every group is tried, whatever the groups before it raised: its calls come between theirs and those of the groups after it. |
| Flush.SendGroupsMeaning | Rebus.AmazonSQS/AmazonSQS/AmazonSqsTransport.cs:243-280 | The flush of the groups keeps the cache and makes only lookups and batches. It raises nothing exactly when every group raises nothing when sent from the cache the groups before it left. When it raises nothing, it sends one batch per group, in group order. Batch i holds group i's entries and went to the URL that the final cache resolves group i's destination to, with no further call. |
| Flush.FlushMessages | Rebus.AmazonSQS/AmazonSQS/AmazonSqsTransport.cs:235 | An empty buffer makes no call and leaves the cache as it was. |
| Flush.FlushSendsEveryMessageOnce | Rebus.AmazonSQS/AmazonSQS/AmazonSqsTransport.cs:239-280 | A flush that raises nothing sends one batch per destination, holding exactly the entries of the messages to that destination in buffer order. Each batch went to the URL that the final cache resolves its destination to. As many entries are sent as messages were buffered. |
| Flush.EntryCountOfSentGroups | Rebus.AmazonSQS/AmazonSQS/AmazonSqsTransport.cs:247-271 | The batches of a successful flush hold as many entries as the groups hold messages. |
| Flush.GroupSizesOfGrouping | Rebus.AmazonSQS/AmazonSQS/AmazonSqsTransport.cs:239-241 | Grouping keeps the number of messages. |
| Flush.BatchErrorComesFromABatch | Rebus.AmazonSQS/AmazonSQS/AmazonSqsTransport.cs:273-278 | A batch error carries the provider's non-empty list of rejected entries for a batch that was sent. |
| Flush.LastBatchRejected | Rebus.AmazonSQS/AmazonSQS/AmazonSqsTransport.cs:271-278 | A group that raises a batch error sent exactly one batch, and the error holds the provider's rejections of it. |
| Context.OutgoingQueue.Enqueue | Rebus.AmazonSQS/AmazonSQS/AmazonSqsTransport.cs:230 | The message goes to the back of the buffer. |
| Context.RenewalTask.Start | Rebus.AmazonSQS/AmazonSQS/AmazonSqsTransport.cs:352 | A created task starts; a disposed task stays disposed. |
| Context.RenewalTask.Dispose | Rebus.AmazonSQS/AmazonSQS/AmazonSqsTransport.cs:331 | The task is disposed. |
| SqsTransport.Transport.Send | Rebus.AmazonSQS/AmazonSQS/AmazonSqsTransport.cs:215-231 | The first send in a context makes a fresh buffer holding the message and registers one commit callback for it. A later send appends to that buffer and registers nothing. The one-callback-per-buffer invariant is kept. |
| SqsTransport.Transport.SendGroup | Rebus.AmazonSQS/AmazonSQS/AmazonSqsTransport.cs:245-279 | The cache, the call log and the error end up as `Flush.SendGroup` says. |
| SqsTransport.Transport.SendOutgoingMessages | Rebus.AmazonSQS/AmazonSQS/AmazonSqsTransport.cs:233-281 | The cache, call log and error end up as `Flush.FlushMessages` says. An empty buffer takes no client. |
| SqsTransport.SendAndCommit | Rebus.AmazonSQS/AmazonSQS/AmazonSqsTransport.cs:215-281 | A transaction that sends a sequence of messages and commits flushes exactly that sequence. |
| SqsTransport.ReceivedMessage | Rebus.AmazonSQS/AmazonSQS/AmazonSqsTransport.cs:344-353 | A received message is the message extracted from the body, or nothing if it has expired. |
| SqsTransport.ReceivedMessageOfEntry | Rebus.AmazonSQS/AmazonSQS/AmazonSqsTransport.cs:250-256 | An SQS message whose body is the entry of an outgoing message without a time to be received is received as that message. |
| SqsTransport.ExpiredMessageIsNotReceived | Rebus.AmazonSQS/AmazonSQS/AmazonSqsTransport.cs:345-351 | A readable expired message is received as nothing. |
| SqsTransport.Transport.Receive | Rebus.AmazonSQS/AmazonSQS/AmazonSqsTransport.cs:298-354 | No address, or no queue URL, is an error with no call and no registration. Otherwise one receive of one message is made. An empty poll returns nothing and registers nothing. A polled message gets a fresh renewal task named after its id, plus its completion and abort callbacks, registered before it is read. An expired message is deleted at once, and only a returned message has its task started. |
| SqsTransport.Transport.ReceivePolled | Rebus.AmazonSQS/AmazonSQS/AmazonSqsTransport.cs:325-353 | The part of `Receive` after a message was polled, with the same promises for it. |
| SqsTransport.Transport.RenewPeekLock | Rebus.AmazonSQS/AmazonSQS/AmazonSqsTransport.cs:356-369 | A running task extends its message's visibility by the peek-lock duration in whole seconds. Any other task makes no call. |
| SqsTransport.Transport.RunCompleted | Rebus.AmazonSQS/AmazonSQS/AmazonSqsTransport.cs:329-336 | Each completion callback disposes its task and deletes its message, in registration order. |
| SqsTransport.Transport.RunAborted | Rebus.AmazonSQS/AmazonSQS/AmazonSqsTransport.cs:338-342 | Each abort callback disposes its task and sets its message's visibility to 0, in registration order. |
| SqsTransport.ReceiveExpiredThenComplete | Rebus.AmazonSQS/AmazonSQS/AmazonSqsTransport.cs:329-351 | An expired message is deleted twice: once on receipt, and again by the completion callback registered before the expiry check. |
| SqsTransport.ReceiveThenAbort | Rebus.AmazonSQS/AmazonSQS/AmazonSqsTransport.cs:338-351 | Aborting a receive makes the message visible again at once, after the deletion an expired message already had. |
| Batching.Batch | Rebus.AmazonSQS/Internals/EnumerableExtensions.cs:8-27 | The batches concatenate to the items and are non-empty. For max ≥ 1 each holds at most max items and all but the last exactly max. There are ceil(n / max) batches, none for empty input, and one singleton per item for max ≤ 0. |
| Batching.ChunkingMeaning | Rebus.AmazonSQS/Internals/EnumerableExtensions.cs:14-26 | The chunking that `Batch` produces, spelled out as the same list of properties. |
| Batching.ChunkingCount | Rebus.AmazonSQS/Internals/EnumerableExtensions.cs:16-26 | A chunking of n items at capacity c has ceil(n / c) batches. |
| Batching.ChunkingIsUnique | Rebus.AmazonSQS/Internals/EnumerableExtensions.cs:10-26 | There is only one chunking of a sequence at a given capacity. |
| ConnectionStrings.Split | Rebus.AmazonSQS.Tests/ConnectionInfo.cs:21 | `String.Split` gives at least one part. |
| ConnectionStrings.SplitConcat | Rebus.AmazonSQS.Tests/ConnectionInfo.cs:21 | The parts put back together are the input without its separators. |
| ConnectionStrings.SplitPartsHaveNoSeparator | Rebus.AmazonSQS.Tests/ConnectionInfo.cs:21 | No part contains a separator. |
| ConnectionStrings.PiecesOfText | Rebus.AmazonSQS.Tests/ConnectionInfo.cs:21 | The pieces are non-empty and free of ';' and ' ', and together they are the text without those characters. |
| ConnectionStrings.KeyAndValue | Rebus.AmazonSQS.Tests/ConnectionInfo.cs:30 | A piece's key is the text before its first '=' (the whole piece without one). Its value is the text between the first and the second '='. |
| ConnectionStrings.ToDictionaryMeaning | Rebus.AmazonSQS.Tests/ConnectionInfo.cs:30 | `ToDictionary` succeeds iff every piece has an '=' and no key repeats. It then maps exactly the keys to their values. |
| ConnectionStrings.CreateFromStringMeaning | Rebus.AmazonSQS.Tests/ConnectionInfo.cs:17-47 | The parser succeeds iff every piece has an '=', no key repeats and the three required keys occur. The fields are then those keys' values, and other keys are ignored. |
| ConnectionStrings.PieceWithoutEqualsFails | Rebus.AmazonSQS.Tests/ConnectionInfo.cs:30 | A piece without '=' makes the parser fail. |

## Left out

- The AWS SDK. Each call is one entry of the call log, and the answers to URL lookups and batch
  requests are oracle functions. The message a receive poll delivers is a parameter of `Receive`.
  Cancellation tokens and the `Task.Run(...).Wait` around the abort callback's call are not modelled.
- `Purge`, `CreateQueue` and `DeleteQueue`. They are network plumbing: a loop whose end depends on
  the service, and queue creation with its attributes.
  - `Initialize` therefore does not model the `CreateQueue` call it makes when `CreateQueues` is
    set.
  - `GetInputQueueUrl` is modelled as the resolution of the input address in a fresh context,
    with its failure wrapped in an error naming the input queue.
- Concurrency:
  - `Task.WhenAll` over the destination groups is modelled as sending the groups one after another
    in group order. The error is the first failing group's error, and the other groups' errors of
    the `AggregateException` are not kept.
  - The thread safety of `ConcurrentQueue`/`ConcurrentDictionary` and `AsyncHelpers.RunSync` are
    not modelled.
  - The periodic timing of the renewal task: `RenewPeekLock` is one tick of it, and the task
    factory's scheduling is not modelled.
- Rebus's transaction context. Running the registered callbacks is modelled by
  `RunCompleted`, `RunAborted` and `SendAndCommit`. The rest of its life cycle (ordering between
  commit, completion and disposal, and the disposal callbacks) is not modelled.
- Floating point:
  - `TotalMinutes * 0.8` is modelled as four fifths of the ticks, rounded toward zero.
  - `Math.Ceiling(TotalSeconds)` is modelled as integer ceiling division of ticks.
  - Timing.CeilingSeconds: does not model the overflow of the `(int)` cast for delays beyond
    the range of a 32-bit integer.
- `RebusTime.Now` is a single `now` parameter per operation.
- Library calls:
  - Newtonsoft's JSON text layer, `DateTimeOffset.ParseExact`, `TimeSpan.Parse`, `long.Parse` and
    `Uri.IsWellFormedUriString` are function values of `Platform.Library`.
  - `Uri` parsing is modelled only as far as taking the absolute path and its segments. Escaping and
    normalisation are not modelled.
  - `ToLowerInvariant` lower-cases ASCII letters only.
- The null checks of the constructor and of `Send` and `Receive` are not modelled, since Dafny
  values are never null. The null input-queue address is `Option.None`, and `Deserialize(null)`
  cannot arise because a received body is a string.
- Envelope.FromJson: Newtonsoft matches property names case-insensitively and stores a JSON null
  header value as a null entry of the dictionary. The model reads only the exact property names
  `headers` and `body`, and refuses a header value that is not a string, because a header value
  of the model is never null.
- A JSON body that holds a value of the wrong type for a property is modelled as a failure. The
  serialiser's exception types are not distinguished.
- Behaviour the transport does not have is not modelled either: the 900-second delay limit of the
  options' documentation, sub-batching of more than ten entries, and FIFO queue attributes.
- Configuration wiring, logging, the `ClientFactory` option some tests use, and the live-SQS test
  fixtures.

## Findings

| source | as written | input that shows it | evidently intended | confidence | as-written member | corrected member |
|---|---|---|---|---|---|---|
| Rebus.AmazonSQS/AmazonSQS/AmazonSqsTransport.cs:292 | the native delay is `(int)Math.Ceiling((deferUntil - now).TotalSeconds)` with no lower bound | a message whose deferred-until header is one day before now gets delay -86400 s | a delay that is never negative, as the test at Rebus.AmazonSQS.Tests/Bugs/DelayForMessagesCanBeCalculatedLessThanZero.cs:42 asserts | not executed | Timing.PastDeferralGivesNegativeDelay | Timing.DelaySeconds |

The batch entries of the model (`Wire.BuildEntry`) follow the source as written and use
`Timing.DelaySecondsAsWritten`, so a flush sends the negative delay
(`Wire.PastDeferralIsSentWithNegativeDelay`). `Timing.DelaySeconds` is the corrected delay, with its
properties proved, for the entry to use once the source is corrected.
