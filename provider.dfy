/**
 * The queue service as the transport sees it through its client: the requests it sends,
 * recorded in an append-only log, and the answers it gets back, which are stand-ins fixed
 * when the client is made.
 */
module Provider {
  import opened Wrappers

  /** HTTP 200, the status `GetQueueUrlAsync` must report for a lookup to count as found. */
  const HttpOk: int := 200

  /** The answer to a queue-URL lookup. */
  datatype UrlResponse = UrlResponse(httpStatusCode: int, queueUrl: string)

  /** One entry of a `SendMessageBatchRequest`. */
  datatype BatchEntry = BatchEntry(id: string, messageBody: string, delaySeconds: Option<int>)

  /** One entry the service rejected in a batch answer (`response.Failed`). */
  datatype BatchResultError = BatchResultError(id: string, code: string, message: string, senderFault: bool)

  /** A received SQS message: its id, the handle that identifies this receipt, its body and system attributes. */
  datatype SqsMessage = SqsMessage(messageId: string, receiptHandle: string, body: string, attributes: map<string, string>)

  /** A request sent to the queue service. */
  datatype Call =
    | GetQueueUrl(queueName: string)
    | SendMessageBatch(queueUrl: string, entries: seq<BatchEntry>)
    | ReceiveMessage(queueUrl: string, maxNumberOfMessages: int, waitTimeSeconds: int)
    | DeleteMessage(queueUrl: string, receiptHandle: string)
    | ChangeMessageVisibility(queueUrl: string, receiptHandle: string, visibilityTimeoutSeconds: int)

  /**
   * The SQS client. `calls` is every request made through it, in order. The answer to a
   * lookup and the rejected entries of a batch are fixed functions of the request.
   */
  class QueueClient {
    var calls: seq<Call>
    const lookup: string -> UrlResponse
    const rejects: (string, seq<BatchEntry>) -> seq<BatchResultError>

    constructor (lookup: string -> UrlResponse, rejects: (string, seq<BatchEntry>) -> seq<BatchResultError>)
      ensures calls == [] && this.lookup == lookup && this.rejects == rejects
    {
      calls := [];
      this.lookup := lookup;
      this.rejects := rejects;
    }

    /** `GetQueueUrlAsync(name)`. */
    method GetQueueUrl(queueName: string) returns (response: UrlResponse)
      modifies this
      ensures calls == old(calls) + [Call.GetQueueUrl(queueName)]
      ensures response == lookup(queueName)
    {
      calls := calls + [Call.GetQueueUrl(queueName)];
      response := lookup(queueName);
    }

    /** `SendMessageBatchAsync(request)`: the entries the service rejected. */
    method SendMessageBatch(queueUrl: string, entries: seq<BatchEntry>) returns (failed: seq<BatchResultError>)
      modifies this
      ensures calls == old(calls) + [Call.SendMessageBatch(queueUrl, entries)]
      ensures failed == rejects(queueUrl, entries)
    {
      calls := calls + [Call.SendMessageBatch(queueUrl, entries)];
      failed := rejects(queueUrl, entries);
    }

    /** `ReceiveMessageAsync(request)`; what it delivers is the caller's stand-in. */
    method ReceiveMessage(queueUrl: string, maxNumberOfMessages: int, waitTimeSeconds: int)
      modifies this
      ensures calls == old(calls) + [Call.ReceiveMessage(queueUrl, maxNumberOfMessages, waitTimeSeconds)]
    {
      calls := calls + [Call.ReceiveMessage(queueUrl, maxNumberOfMessages, waitTimeSeconds)];
    }

    /** `DeleteMessageAsync(request)`. */
    method DeleteMessage(queueUrl: string, receiptHandle: string)
      modifies this
      ensures calls == old(calls) + [Call.DeleteMessage(queueUrl, receiptHandle)]
    {
      calls := calls + [Call.DeleteMessage(queueUrl, receiptHandle)];
    }

    /** `ChangeMessageVisibilityAsync(url, handle, seconds)`. */
    method ChangeMessageVisibility(queueUrl: string, receiptHandle: string, visibilityTimeoutSeconds: int)
      modifies this
      ensures calls == old(calls) + [Call.ChangeMessageVisibility(queueUrl, receiptHandle, visibilityTimeoutSeconds)]
    {
      calls := calls + [Call.ChangeMessageVisibility(queueUrl, receiptHandle, visibilityTimeoutSeconds)];
    }
  }
}
