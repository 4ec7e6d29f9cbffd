/**
 * `AmazonSQSTransport`: the object that buffers sends in a transaction context and flushes them
 * when the context commits, resolves and caches queue URLs, receives one message at a time and
 * registers what completing or aborting the receiving context does to it. The SQS service is the
 * call log of a `Provider.QueueClient`; every method is proved against the functions of the
 * `Addressing`, `Flush`, `Timing` and `Wire` modules.
 */
module SqsTransport {
  import opened Wrappers
  import opened Messages
  import opened Context
  import Platform
  import Provider
  import Timing
  import Addressing
  import Grouping
  import Wire
  import Flush

  /** The context's items once the SQS client is in them. */
  function WithClient(items: map<string, Item>): (r: map<string, Item>)
    ensures ClientContextKey in r && r[ClientContextKey] == (if ClientContextKey in items then items[ClientContextKey] else ClientItem)
    ensures forall key | key in items :: key in r && (key != ClientContextKey ==> r[key] == items[key])
    ensures forall key | key in r :: key in items || key == ClientContextKey
  {
    if ClientContextKey in items then items else items[ClientContextKey := ClientItem]
  }

  /** The disposal a context gains when its client is made: one, unless it had a client already. */
  function ClientDisposal(items: map<string, Item>): seq<DisposeAction>
  {
    if ClientContextKey in items then [] else [DisposeClient]
  }

  /** What receiving the polled message gives: its transport message, or nothing when it has expired. */
  function ReceivedMessage(m: Provider.SqsMessage, now: int, lib: Platform.Library): (r: Result<Option<TransportMessage>, TransportError>)
    ensures r.Success? ==> Wire.ExtractTransportMessage(m.body, lib).Success?
    ensures r.Success? && r.value.Some? ==> r.value.value == Wire.ExtractTransportMessage(m.body, lib).value
  {
    var message :- Wire.ExtractTransportMessage(m.body, lib);
    var expired :- Timing.MessageIsExpired(message.headers, m.attributes, now, lib);
    Success(if expired then None else Some(message))
  }

  /**
   * What is sent is what is received: an SQS message whose body is the entry built for an
   * outgoing message without a time-to-be-received is received as that transport message.
   */
  lemma ReceivedMessageOfEntry(out: Grouping.OutgoingMessage, m: Provider.SqsMessage, options: TransportOptions, sentAt: int, now: int, lib: Platform.Library)
    requires Platform.JsonTextRoundTrips(lib)
    requires Wire.BuildEntry(out, options, sentAt, lib).Success?
    requires m.body == Wire.BuildEntry(out, options, sentAt, lib).value.messageBody
    requires TimeToBeReceivedHeader !in out.transportMessage.headers
    ensures ReceivedMessage(m, now, lib) == Success(Some(out.transportMessage))
  {
    Wire.ExtractTransportMessageOfEntry(out, options, sentAt, lib);
  }

  /** An expired message that can be read is received as nothing. */
  lemma ExpiredMessageIsNotReceived(m: Provider.SqsMessage, now: int, lib: Platform.Library)
    requires Wire.ExtractTransportMessage(m.body, lib).Success?
    requires Timing.MessageIsExpired(Wire.ExtractTransportMessage(m.body, lib).value.headers, m.attributes, now, lib) == Success(true)
    ensures ReceivedMessage(m, now, lib) == Success(None)
  {
  }

  /** The deletions the completion callbacks make, in registration order. */
  function Deletions(actions: seq<CompletionAction>, queueUrl: string): (calls: seq<Provider.Call>)
    ensures |calls| == |actions|
    ensures forall i :: 0 <= i < |actions| ==> calls[i] == Provider.DeleteMessage(queueUrl, actions[i].receiptHandle)
  {
    if actions == [] then [] else Deletions(actions[..|actions| - 1], queueUrl) + [Provider.DeleteMessage(queueUrl, actions[|actions| - 1].receiptHandle)]
  }

  /** The visibility resets the abort callbacks make, in registration order. */
  function Releases(actions: seq<AbortAction>, queueUrl: string): (calls: seq<Provider.Call>)
    ensures |calls| == |actions|
    ensures forall i :: 0 <= i < |actions| ==> calls[i] == Provider.ChangeMessageVisibility(queueUrl, actions[i].receiptHandle, 0)
  {
    if actions == [] then [] else Releases(actions[..|actions| - 1], queueUrl) + [Provider.ChangeMessageVisibility(queueUrl, actions[|actions| - 1].receiptHandle, 0)]
  }

  lemma DeletionsStep(actions: seq<CompletionAction>, i: nat, queueUrl: string)
    requires i < |actions|
    ensures Deletions(actions[..i + 1], queueUrl) == Deletions(actions[..i], queueUrl) + [Provider.DeleteMessage(queueUrl, actions[i].receiptHandle)]
  {
    assert actions[..i + 1][..i] == actions[..i];
  }

  lemma ReleasesStep(actions: seq<AbortAction>, i: nat, queueUrl: string)
    requires i < |actions|
    ensures Releases(actions[..i + 1], queueUrl) == Releases(actions[..i], queueUrl) + [Provider.ChangeMessageVisibility(queueUrl, actions[i].receiptHandle, 0)]
  {
    assert actions[..i + 1][..i] == actions[..i];
  }

  /** The one commit callback the transport registers in a context is for the context's buffer. */
  predicate CommitsMatchBuffer(context: TransactionContext)
    reads context
  {
    context.committed ==
      if OutgoingMessagesItemsKey in context.items && context.items[OutgoingMessagesItemsKey].OutgoingMessagesItem? then
        [SendOutgoing(context.items[OutgoingMessagesItemsKey].queue)]
      else
        []
  }

  class Transport {
    const address: Option<string>
    const options: TransportOptions
    const lib: Platform.Library
    /** The SQS service, reached through the client of whichever context is at hand. */
    const client: Provider.QueueClient
    var peekLockDuration: int
    var peekLockRenewalInterval: int
    /** The input queue's URL once `Initialize` has found it; empty before. */
    var queueUrl: string
    /** `_queueUrls`: URLs by lower-cased address. */
    var queueUrls: map<string, string>

    /** The URL cache holds only lower-cased keys. */
    predicate Valid()
      reads this
    {
      Addressing.KeysAreLowerCase(queueUrls)
    }

    /** The setting a flush at `now` runs in. */
    function SettingAt(now: int): Flush.Setting
    {
      Flush.Setting(options, now, lib, client.lookup, client.rejects)
    }

    constructor (address: Option<string>, options: Option<TransportOptions>, lib: Platform.Library, client: Provider.QueueClient)
      requires Addressing.CheckInputQueueAddress(address, lib).Success?
      ensures Valid()
      ensures this.address == address && this.options == options.GetOr(DefaultOptions)
      ensures this.lib == lib && this.client == client
      ensures peekLockDuration == Timing.DefaultPeekLockDuration && peekLockRenewalInterval == Timing.DefaultPeekLockRenewalInterval
      ensures queueUrl == "" && queueUrls == map[]
    {
      this.address := address;
      this.options := options.GetOr(DefaultOptions);
      this.lib := lib;
      this.client := client;
      peekLockDuration := Timing.DefaultPeekLockDuration;
      peekLockRenewalInterval := Timing.DefaultPeekLockRenewalInterval;
      queueUrl := "";
      queueUrls := map[];
    }

    /**
     * Constructing a transport: an input queue address with a '/' that is not a well-formed
     * absolute URI is refused; any other address, or none, gives a transport for it.
     */
    static method Create(address: Option<string>, options: Option<TransportOptions>, lib: Platform.Library, client: Provider.QueueClient)
      returns (r: Result<Transport, TransportError>)
      ensures r.Failure? <==> address.Some? && '/' in address.value && !lib.isWellFormedAbsoluteUri(address.value)
      ensures r.Failure? ==> r.error == InvalidInputQueueAddress(address.value)
      ensures r.Success? ==> fresh(r.value) && r.value.Valid() && r.value.address == address && r.value.queueUrl == "" && r.value.queueUrls == map[]
      ensures r.Success? ==> r.value.options == options.GetOr(DefaultOptions) && r.value.lib == lib && r.value.client == client
      ensures r.Success? ==>
        r.value.peekLockDuration == Timing.DefaultPeekLockDuration && r.value.peekLockRenewalInterval == Timing.DefaultPeekLockRenewalInterval
    {
      var check := Addressing.CheckInputQueueAddress(address, lib);
      if check.Failure? {
        return Failure(check.error);
      }
      var transport := new Transport(address, options, lib, client);
      return Success(transport);
    }

    /** `GetClientFromTransactionContext`: the context's client, made (and its disposal registered) on first use. */
    method GetClientFromTransactionContext(context: TransactionContext)
      modifies context
      ensures context.items == WithClient(old(context.items))
      ensures context.disposed == old(context.disposed) + ClientDisposal(old(context.items))
      ensures context.committed == old(context.committed) && context.completed == old(context.completed) && context.aborted == old(context.aborted)
    {
      if ClientContextKey !in context.items {
        context.items := context.items[ClientContextKey := ClientItem];
        context.disposed := context.disposed + [DisposeClient];
      }
    }

    /**
     * `GetDestinationQueueUrlByName`: the method keeps the cache and the call log exactly as
     * `Addressing.Resolve` says, and takes the context's client only when it asks the provider.
     */
    method GetDestinationQueueUrlByName(address: string, context: TransactionContext) returns (url: Result<string, TransportError>)
      modifies this, client, context
      ensures var r := Addressing.Resolve(old(queueUrls), address, lib, client.lookup);
        && url == r.url
        && queueUrls == r.cache
        && client.calls == old(client.calls) + r.calls
        && (r.calls == [] ==> context.items == old(context.items) && context.disposed == old(context.disposed))
        && (r.calls != [] ==> context.items == WithClient(old(context.items)) && context.disposed == old(context.disposed) + ClientDisposal(old(context.items)))
      ensures old(Valid()) ==> Valid()
      ensures context.committed == old(context.committed) && context.completed == old(context.completed) && context.aborted == old(context.aborted)
      ensures peekLockDuration == old(peekLockDuration) && peekLockRenewalInterval == old(peekLockRenewalInterval) && queueUrl == old(queueUrl)
    {
      if Valid() {
        Addressing.ResolveKeepsCache(queueUrls, address, lib, client.lookup);
      }
      var key := Platform.ToLowerInvariant(address);
      if key in queueUrls {
        return Success(queueUrls[key]);
      }
      if lib.isWellFormedAbsoluteUri(address) {
        queueUrls := queueUrls[key := address];
        return Success(address);
      }
      GetClientFromTransactionContext(context);
      var response := client.GetQueueUrl(address);
      if response.httpStatusCode == Provider.HttpOk {
        queueUrls := queueUrls[key := response.queueUrl];
        return Success(response.queueUrl);
      }
      return Failure(QueueUrlNotFound(address, response.httpStatusCode));
    }

    /**
     * `Initialize()`: nothing without an input queue; else the input queue's URL is resolved (in a
     * context of its own) and kept, and a failure is wrapped in an error naming the input queue.
     */
    method Initialize() returns (error: Option<TransportError>)
      modifies this, client
      ensures address.None? ==> error.None? && queueUrl == old(queueUrl) && queueUrls == old(queueUrls) && client.calls == old(client.calls)
      ensures address.Some? ==>
        var r := Addressing.Resolve(old(queueUrls), address.value, lib, client.lookup);
        && queueUrls == r.cache
        && client.calls == old(client.calls) + r.calls
        && (r.url.Success? ==> error.None? && queueUrl == r.url.value)
        && (r.url.Failure? ==> error == Some(InputQueueUrlUnavailable(address.value, r.url.error)) && queueUrl == old(queueUrl))
      ensures old(Valid()) ==> Valid()
      ensures peekLockDuration == old(peekLockDuration) && peekLockRenewalInterval == old(peekLockRenewalInterval)
    {
      if address.None? {
        return None;
      }
      var scope := new TransactionContext();
      var url := GetDestinationQueueUrlByName(address.value, scope);
      if url.Failure? {
        return Some(InputQueueUrlUnavailable(address.value, url.error));
      }
      queueUrl := url.value;
      return None;
    }

    /** `Initialize(TimeSpan)`: the peek lock lasts `duration` and is renewed after four fifths of it; then `Initialize()`. */
    method InitializeWithPeekLock(duration: int) returns (error: Option<TransportError>)
      modifies this, client
      ensures peekLockDuration == duration && peekLockRenewalInterval == Timing.RenewalInterval(duration)
      ensures duration > 0 ==> 0 <= peekLockRenewalInterval < peekLockDuration
      ensures address.None? ==> error.None? && queueUrl == old(queueUrl) && queueUrls == old(queueUrls) && client.calls == old(client.calls)
      ensures address.Some? ==>
        var r := Addressing.Resolve(old(queueUrls), address.value, lib, client.lookup);
        && queueUrls == r.cache
        && client.calls == old(client.calls) + r.calls
        && (r.url.Success? ==> error.None? && queueUrl == r.url.value)
        && (r.url.Failure? ==> error == Some(InputQueueUrlUnavailable(address.value, r.url.error)) && queueUrl == old(queueUrl))
      ensures old(Valid()) ==> Valid()
    {
      peekLockDuration := duration;
      peekLockRenewalInterval := Timing.RenewalInterval(duration);
      error := Initialize();
    }

    /**
     * `Send`: the first send in a context makes its buffer and registers the one commit callback
     * that flushes it; every send appends its message to the back of that buffer.
     */
    method Send(destinationAddress: string, message: TransportMessage, context: TransactionContext)
      requires context.ItemsHaveTheirTypes()
      modifies context, context.Buffer()
      ensures context.ItemsHaveTheirTypes() && OutgoingMessagesItemsKey in context.items
      ensures OutgoingMessagesItemsKey in old(context.items) ==>
        && context.items == old(context.items)
        && context.committed == old(context.committed)
        && context.items[OutgoingMessagesItemsKey].queue.messages
             == old(context.items[OutgoingMessagesItemsKey].queue.messages) + [Grouping.OutgoingMessage(destinationAddress, message)]
      ensures OutgoingMessagesItemsKey !in old(context.items) ==>
        var buffer := context.items[OutgoingMessagesItemsKey].queue;
        && fresh(buffer)
        && context.items == old(context.items)[OutgoingMessagesItemsKey := OutgoingMessagesItem(buffer)]
        && context.committed == old(context.committed) + [SendOutgoing(buffer)]
        && buffer.messages == [Grouping.OutgoingMessage(destinationAddress, message)]
      ensures old(CommitsMatchBuffer(context)) ==> CommitsMatchBuffer(context)
      ensures context.completed == old(context.completed) && context.aborted == old(context.aborted) && context.disposed == old(context.disposed)
    {
      var buffer: OutgoingQueue;
      if OutgoingMessagesItemsKey in context.items {
        buffer := context.items[OutgoingMessagesItemsKey].queue;
      } else {
        buffer := new OutgoingQueue();
        context.committed := context.committed + [SendOutgoing(buffer)];
        context.items := context.items[OutgoingMessagesItemsKey := OutgoingMessagesItem(buffer)];
      }
      buffer.Enqueue(Grouping.OutgoingMessage(destinationAddress, message));
    }

    /** The async lambda of `SendOutgoingMessages` for one group: build its entries, resolve its destination, send one batch. */
    method SendGroup(group: Grouping.Group, context: TransactionContext, now: int) returns (error: Option<TransportError>)
      modifies this, client, context
      ensures var o := Flush.SendGroup(group, old(queueUrls), SettingAt(now));
        && queueUrls == o.cache
        && client.calls == old(client.calls) + o.calls
        && error == o.error
      ensures ClientContextKey in old(context.items) ==> context.items == old(context.items) && context.disposed == old(context.disposed)
      ensures context.committed == old(context.committed) && context.completed == old(context.completed) && context.aborted == old(context.aborted)
      ensures peekLockDuration == old(peekLockDuration) && peekLockRenewalInterval == old(peekLockRenewalInterval) && queueUrl == old(queueUrl)
    {
      var entries := Flush.BuildEntries(group.messages, SettingAt(now));
      if entries.Failure? {
        return Some(entries.error);
      }
      var url := GetDestinationQueueUrlByName(group.key, context);
      if url.Failure? {
        return Some(url.error);
      }
      var failed := client.SendMessageBatch(url.value, entries.value);
      error := if failed == [] then None else Some(BatchFailed(failed));
    }

    /**
     * `SendOutgoingMessages`: an empty buffer makes no call and takes no client; otherwise the
     * context's client is taken and the groups are sent, the call log, the cache and the error
     * ending up as `Flush.FlushMessages` says.
     */
    method SendOutgoingMessages(buffer: OutgoingQueue, context: TransactionContext, now: int) returns (error: Option<TransportError>)
      modifies this, client, context
      ensures var o := Flush.FlushMessages(buffer.messages, old(queueUrls), SettingAt(now));
        && queueUrls == o.cache
        && client.calls == old(client.calls) + o.calls
        && error == o.error
      ensures buffer.messages == [] ==> context.items == old(context.items) && context.disposed == old(context.disposed)
      ensures buffer.messages != [] ==> context.items == WithClient(old(context.items)) && context.disposed == old(context.disposed) + ClientDisposal(old(context.items))
      ensures context.committed == old(context.committed) && context.completed == old(context.completed) && context.aborted == old(context.aborted)
      ensures peekLockDuration == old(peekLockDuration) && peekLockRenewalInterval == old(peekLockRenewalInterval) && queueUrl == old(queueUrl)
    {
      if buffer.messages == [] {
        return None;
      }
      GetClientFromTransactionContext(context);
      var groups := Grouping.GroupByDestination(buffer.messages);
      error := None;
      var i := 0;
      while i < |groups|
        invariant 0 <= i <= |groups|
        invariant var o := Flush.SendGroups(groups[..i], old(queueUrls), SettingAt(now));
          && queueUrls == o.cache
          && client.calls == old(client.calls) + o.calls
          && error == o.error
        invariant context.items == WithClient(old(context.items)) && context.disposed == old(context.disposed) + ClientDisposal(old(context.items))
        invariant context.committed == old(context.committed) && context.completed == old(context.completed) && context.aborted == old(context.aborted)
        invariant peekLockDuration == old(peekLockDuration) && peekLockRenewalInterval == old(peekLockRenewalInterval) && queueUrl == old(queueUrl)
      {
        ghost var before := Flush.SendGroups(groups[..i], old(queueUrls), SettingAt(now));
        SendGroupsStep(groups, i, old(queueUrls), SettingAt(now));
        var groupError := SendGroup(groups[i], context, now);
        AppendAssociates(old(client.calls), before.calls, Flush.SendGroup(groups[i], before.cache, SettingAt(now)).calls);
        if error.None? {
          error := groupError;
        }
        i := i + 1;
      }
      assert groups[..|groups|] == groups;
    }

    /**
     * `Receive`: with no input queue, or before `Initialize`, an error and nothing else. Else one
     * message is polled for; an empty poll gives nothing and registers nothing. A message gets a
     * renewal task and its completion and abort callbacks before it is read; an expired message is
     * deleted at once and gives nothing, and only a message that is returned has its task started.
     */
    method Receive(context: TransactionContext, polled: Option<Provider.SqsMessage>, now: int) returns (r: Result<Option<TransportMessage>, TransportError>)
      modifies client, context
      ensures address.None? ==> r == Failure(NoInputQueue)
      ensures address.Some? && Platform.IsEmptyOrWhiteSpace(queueUrl) ==> r == Failure(QueueUrlNotInitialized)
      ensures r == Failure(NoInputQueue) || r == Failure(QueueUrlNotInitialized) ==>
        client.calls == old(client.calls) && context.items == old(context.items) && context.completed == old(context.completed) && context.aborted == old(context.aborted)
      ensures address.Some? && !Platform.IsEmptyOrWhiteSpace(queueUrl) ==>
        && context.items == WithClient(old(context.items))
        && context.disposed == old(context.disposed) + ClientDisposal(old(context.items))
        && |client.calls| > |old(client.calls)|
        && client.calls[..|old(client.calls)| + 1] == old(client.calls) + [Provider.ReceiveMessage(queueUrl, 1, options.receiveWaitTimeSeconds)]
      ensures address.Some? && !Platform.IsEmptyOrWhiteSpace(queueUrl) && polled.None? ==>
        && r == Success(None)
        && client.calls == old(client.calls) + [Provider.ReceiveMessage(queueUrl, 1, options.receiveWaitTimeSeconds)]
        && context.completed == old(context.completed) && context.aborted == old(context.aborted)
      ensures address.Some? && !Platform.IsEmptyOrWhiteSpace(queueUrl) && polled.Some? ==>
        var m := polled.value;
        && |context.completed| == |old(context.completed)| + 1
        && var task := context.completed[|context.completed| - 1].renewal;
        && fresh(task)
        && context.completed == old(context.completed) + [DisposeThenDelete(task, m.receiptHandle)]
        && context.aborted == old(context.aborted) + [DisposeThenRelease(task, m.receiptHandle)]
        && task.name == "RenewPeekLock-" + m.messageId
        && task.intervalSeconds == Timing.WholeSeconds(peekLockRenewalInterval)
        && task.receiptHandle == m.receiptHandle
        && r == ReceivedMessage(m, now, lib)
        && task.state == (if r.Success? && r.value.Some? then Started else Created)
        && client.calls == old(client.calls) + [Provider.ReceiveMessage(queueUrl, 1, options.receiveWaitTimeSeconds)]
             + (if r == Success(None) then [Provider.DeleteMessage(queueUrl, m.receiptHandle)] else [])
      ensures context.committed == old(context.committed)
    {
      if address.None? {
        return Failure(NoInputQueue);
      }
      if Platform.IsEmptyOrWhiteSpace(queueUrl) {
        return Failure(QueueUrlNotInitialized);
      }
      GetClientFromTransactionContext(context);
      client.ReceiveMessage(queueUrl, 1, options.receiveWaitTimeSeconds);
      if polled.None? {
        return Success(None);
      }
      r := ReceivePolled(context, polled.value, now);
    }

    /**
     * The part of `Receive` after a message was polled: its renewal task and callbacks are
     * registered first, then the message is read, an expired one deleted, and the task of a
     * returned one started.
     */
    method ReceivePolled(context: TransactionContext, m: Provider.SqsMessage, now: int) returns (r: Result<Option<TransportMessage>, TransportError>)
      modifies client, context
      ensures |context.completed| == |old(context.completed)| + 1
      ensures var task := context.completed[|context.completed| - 1].renewal;
        && fresh(task)
        && context.completed == old(context.completed) + [DisposeThenDelete(task, m.receiptHandle)]
        && context.aborted == old(context.aborted) + [DisposeThenRelease(task, m.receiptHandle)]
        && task.name == "RenewPeekLock-" + m.messageId
        && task.intervalSeconds == Timing.WholeSeconds(peekLockRenewalInterval)
        && task.receiptHandle == m.receiptHandle
        && r == ReceivedMessage(m, now, lib)
        && task.state == (if r.Success? && r.value.Some? then Started else Created)
      ensures client.calls == old(client.calls) + (if r == Success(None) then [Provider.DeleteMessage(queueUrl, m.receiptHandle)] else [])
      ensures context.items == old(context.items) && context.disposed == old(context.disposed) && context.committed == old(context.committed)
    {
      var task := new RenewalTask("RenewPeekLock-" + m.messageId, Timing.WholeSeconds(peekLockRenewalInterval), m.receiptHandle);
      context.completed := context.completed + [DisposeThenDelete(task, m.receiptHandle)];
      context.aborted := context.aborted + [DisposeThenRelease(task, m.receiptHandle)];
      var message := Wire.ExtractTransportMessage(m.body, lib);
      if message.Failure? {
        return Failure(message.error);
      }
      var expired := Timing.MessageIsExpired(message.value.headers, m.attributes, now, lib);
      if expired.Failure? {
        return Failure(expired.error);
      }
      if expired.value {
        client.DeleteMessage(queueUrl, m.receiptHandle);
        return Success(None);
      }
      task.Start();
      return Success(Some(message.value));
    }

    /** One tick of a renewal task: a running task pushes its message's visibility out by the peek-lock duration in whole seconds. */
    method RenewPeekLock(task: RenewalTask)
      modifies client
      ensures client.calls == old(client.calls) +
        if task.state == Started then [Provider.ChangeMessageVisibility(queueUrl, task.receiptHandle, Timing.WholeSeconds(peekLockDuration))] else []
    {
      if task.state == Started {
        client.ChangeMessageVisibility(queueUrl, task.receiptHandle, Timing.WholeSeconds(peekLockDuration));
      }
    }

    /** Completing a context: each completion callback disposes its renewal task, then deletes its message. */
    method RunCompleted(context: TransactionContext)
      modifies client, set a | a in context.completed :: a.renewal
      ensures client.calls == old(client.calls) + Deletions(context.completed, queueUrl)
      ensures forall i :: 0 <= i < |context.completed| ==> context.completed[i].renewal.state == Disposed
    {
      var actions, url := context.completed, queueUrl;
      var i := 0;
      while i < |actions|
        invariant 0 <= i <= |actions|
        invariant client.calls == old(client.calls) + Deletions(actions[..i], url)
        invariant forall j :: 0 <= j < i ==> actions[j].renewal.state == Disposed
      {
        var action := actions[i];
        action.renewal.Dispose();
        DeletionsStep(actions, i, url);
        AppendAssociates(old(client.calls), Deletions(actions[..i], url), [Provider.DeleteMessage(url, action.receiptHandle)]);
        client.DeleteMessage(url, action.receiptHandle);
        i := i + 1;
      }
      assert actions[..|actions|] == actions;
    }

    /** Aborting a context: each abort callback disposes its renewal task, then makes its message visible again at once. */
    method RunAborted(context: TransactionContext)
      modifies client, set a | a in context.aborted :: a.renewal
      ensures client.calls == old(client.calls) + Releases(context.aborted, queueUrl)
      ensures forall i :: 0 <= i < |context.aborted| ==> context.aborted[i].renewal.state == Disposed
    {
      var actions, url := context.aborted, queueUrl;
      var i := 0;
      while i < |actions|
        invariant 0 <= i <= |actions|
        invariant client.calls == old(client.calls) + Releases(actions[..i], url)
        invariant forall j :: 0 <= j < i ==> actions[j].renewal.state == Disposed
      {
        var action := actions[i];
        action.renewal.Dispose();
        ReleasesStep(actions, i, url);
        AppendAssociates(old(client.calls), Releases(actions[..i], url), [Provider.ChangeMessageVisibility(url, action.receiptHandle, 0)]);
        client.ChangeMessageVisibility(url, action.receiptHandle, 0);
        i := i + 1;
      }
      assert actions[..|actions|] == actions;
    }
  }

  lemma AppendAssociates<T>(a: seq<T>, b: seq<T>, c: seq<T>)
    ensures a + b + c == a + (b + c)
  {
  }

  /** Sending one group more: the groups before it, then that group from the cache they left. */
  lemma SendGroupsStep(groups: seq<Grouping.Group>, i: nat, cache: map<string, string>, setting: Flush.Setting)
    requires i < |groups|
    ensures var before := Flush.SendGroups(groups[..i], cache, setting);
      var last := Flush.SendGroup(groups[i], before.cache, setting);
      Flush.SendGroups(groups[..i + 1], cache, setting)
        == Flush.Outcome(last.cache, before.calls + last.calls, if before.error.Some? then before.error else last.error)
  {
    assert groups[..i + 1][..i] == groups[..i];
  }

  /**
   * A transaction that sends `outgoing` and commits: the sends fill a single buffer, in order,
   * under a single commit callback, and running that callback sends exactly those messages, as
   * `Flush.FlushMessages` says. A transaction that sends nothing registers nothing and sends nothing.
   */
  method SendAndCommit(transport: Transport, outgoing: seq<Grouping.OutgoingMessage>, now: int) returns (error: Option<TransportError>)
    modifies transport, transport.client
    ensures var o := Flush.FlushMessages(outgoing, old(transport.queueUrls), transport.SettingAt(now));
      && transport.queueUrls == o.cache
      && transport.client.calls == old(transport.client.calls) + o.calls
      && error == o.error
  {
    var context := new TransactionContext();
    var i := 0;
    while i < |outgoing|
      invariant 0 <= i <= |outgoing|
      invariant context.ItemsHaveTheirTypes() && CommitsMatchBuffer(context)
      invariant i == 0 <==> context.committed == []
      invariant i > 0 ==> |context.committed| == 1 && fresh(context.committed[0].queue) && context.committed[0].queue.messages == outgoing[..i]
      invariant transport.queueUrls == old(transport.queueUrls) && transport.client.calls == old(transport.client.calls)
    {
      transport.Send(outgoing[i].destinationAddress, outgoing[i].transportMessage, context);
      assert outgoing[..i + 1] == outgoing[..i] + [outgoing[i]];
      i := i + 1;
    }
    if context.committed == [] {
      return None;
    }
    assert outgoing[..i] == outgoing;
    match context.committed[0]
    case SendOutgoing(buffer) =>
      error := transport.SendOutgoingMessages(buffer, context, now);
  }

  /**
   * An expired message is deleted twice: once when it is received and found expired, and again
   * by the completion callback registered before the expiry check, when its context completes.
   */
  method ReceiveExpiredThenComplete(transport: Transport, m: Provider.SqsMessage, now: int) returns (r: Result<Option<TransportMessage>, TransportError>)
    requires transport.address.Some? && !Platform.IsEmptyOrWhiteSpace(transport.queueUrl)
    requires ReceivedMessage(m, now, transport.lib) == Success(None)
    modifies transport.client
    ensures r == Success(None)
    ensures transport.client.calls == old(transport.client.calls) + [
      Provider.ReceiveMessage(transport.queueUrl, 1, transport.options.receiveWaitTimeSeconds),
      Provider.DeleteMessage(transport.queueUrl, m.receiptHandle),
      Provider.DeleteMessage(transport.queueUrl, m.receiptHandle)]
  {
    var context := new TransactionContext();
    r := transport.Receive(context, Some(m), now);
    transport.RunCompleted(context);
  }

  /**
   * A received message whose context aborts: its renewal task ends, and the message is made
   * visible again at once (after the deletion an expired message already had).
   */
  method ReceiveThenAbort(transport: Transport, m: Provider.SqsMessage, now: int) returns (r: Result<Option<TransportMessage>, TransportError>)
    requires transport.address.Some? && !Platform.IsEmptyOrWhiteSpace(transport.queueUrl)
    modifies transport.client
    ensures r == ReceivedMessage(m, now, transport.lib)
    ensures transport.client.calls == old(transport.client.calls)
      + [Provider.ReceiveMessage(transport.queueUrl, 1, transport.options.receiveWaitTimeSeconds)]
      + (if r == Success(None) then [Provider.DeleteMessage(transport.queueUrl, m.receiptHandle)] else [])
      + [Provider.ChangeMessageVisibility(transport.queueUrl, m.receiptHandle, 0)]
  {
    var context := new TransactionContext();
    r := transport.Receive(context, Some(m), now);
    transport.RunAborted(context);
  }
}
