/**
 * The mutable objects the transport works with: the outgoing-message buffer of a transaction,
 * the peek-lock renewal task of a received message, and the transaction context that carries
 * the transport's items and the callbacks it registers.
 */
module Context {
  import opened Wrappers
  import Grouping

  /** The `ConcurrentQueue<OutgoingMessage>` a transaction's sends are buffered in. */
  class OutgoingQueue {
    var messages: seq<Grouping.OutgoingMessage>

    constructor ()
      ensures messages == []
    {
      messages := [];
    }

    /** `Enqueue`: the message goes to the back of the buffer. */
    method Enqueue(m: Grouping.OutgoingMessage)
      modifies this
      ensures messages == old(messages) + [m]
    {
      messages := messages + [m];
    }
  }

  /** The life of a renewal task: made, started by `Start`, ended by `Dispose`. */
  datatype TaskState = Created | Started | Disposed

  /**
   * The periodic task that renews the peek lock of a received message, as the task factory
   * makes it: a name, an interval in whole seconds, and the receipt handle its action renews.
   */
  class RenewalTask {
    var state: TaskState
    const name: string
    const intervalSeconds: int
    const receiptHandle: string

    constructor (name: string, intervalSeconds: int, receiptHandle: string)
      ensures state == Created
      ensures this.name == name && this.intervalSeconds == intervalSeconds && this.receiptHandle == receiptHandle
    {
      state := Created;
      this.name := name;
      this.intervalSeconds := intervalSeconds;
      this.receiptHandle := receiptHandle;
    }

    /** `Start`: a task that was only made begins to run; a disposed task stays disposed. */
    method Start()
      modifies this
      ensures state == (if old(state) == Created then Started else old(state))
    {
      if state == Created {
        state := Started;
      }
    }

    /** `Dispose`: the task stops for good. */
    method Dispose()
      modifies this
      ensures state == Disposed
    {
      state := Disposed;
    }
  }

  // The keys under which the transport keeps its items in a transaction context.
  const ClientContextKey: string := "SQS_Client"
  const OutgoingMessagesItemsKey: string := "SQS_OutgoingMessages"

  /** An item the transport keeps in a context: the buffer of outgoing messages, or the SQS client. */
  datatype Item = OutgoingMessagesItem(queue: OutgoingQueue) | ClientItem

  /** A callback registered with `OnCommitted`: send what the buffer holds. */
  datatype CommitAction = SendOutgoing(queue: OutgoingQueue)

  /** A callback registered with `OnCompleted`: dispose the renewal task, then delete the message. */
  datatype CompletionAction = DisposeThenDelete(renewal: RenewalTask, receiptHandle: string)

  /** A callback registered with `OnAborted`: dispose the renewal task, then make the message visible again at once. */
  datatype AbortAction = DisposeThenRelease(renewal: RenewalTask, receiptHandle: string)

  /** A callback registered with `OnDisposed`: dispose the context's SQS client. */
  datatype DisposeAction = DisposeClient

  /** `ITransactionContext`: an item bag plus the callbacks registered for each outcome. */
  class TransactionContext {
    var items: map<string, Item>
    var committed: seq<CommitAction>
    var completed: seq<CompletionAction>
    var aborted: seq<AbortAction>
    var disposed: seq<DisposeAction>

    constructor ()
      ensures items == map[] && committed == [] && completed == [] && aborted == [] && disposed == []
    {
      items := map[];
      committed := [];
      completed := [];
      aborted := [];
      disposed := [];
    }

    /** Each of the transport's keys holds an item of the type the transport puts there. */
    predicate ItemsHaveTheirTypes()
      reads this
    {
      && (OutgoingMessagesItemsKey in items ==> items[OutgoingMessagesItemsKey].OutgoingMessagesItem?)
      && (ClientContextKey in items ==> items[ClientContextKey].ClientItem?)
    }

    /** The buffer of outgoing messages, once there is one. */
    function Buffer(): (b: set<object>)
      reads this
    {
      if OutgoingMessagesItemsKey in items && items[OutgoingMessagesItemsKey].OutgoingMessagesItem? then
        {items[OutgoingMessagesItemsKey].queue}
      else
        {}
    }

    /** The renewal tasks the completion and abort callbacks refer to. */
    function RenewalTasks(): set<object>
      reads this
    {
      (set a | a in completed :: a.renewal) + (set a | a in aborted :: a.renewal)
    }
  }
}
