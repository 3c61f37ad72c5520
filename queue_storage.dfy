/** The message queue, kept abstract: the messages currently held by one queue
    ("order-processing"), each addressed for deletion by its MessageId and the
    PopReceipt of the lease under which it was received. */
module QueueStorage {
  import opened Wrappers

  datatype QueueMessage = QueueMessage(messageId: string, popReceipt: string, messageText: string)

  /** The errors a queue call lets escape to its caller. */
  datatype QueueError =
    | MessageNotFound    // 404: no message with that id holds that receipt (deleted, or re-leased)
    | InvalidBatchSize   // the service accepts 1 to 32 messages per receive
    | QueueUnavailable   // any other failure of the service call

  /** The largest batch one receive may ask for. */
  const MaxBatchSize: int := 32

  /** Whether the message `messageId` is held under the receipt `popReceipt`. */
  predicate Holds(messages: set<QueueMessage>, messageId: string, popReceipt: string) {
    exists m :: m in messages && m.messageId == messageId && m.popReceipt == popReceipt
  }

  /** What a delete by (MessageId, PopReceipt) leaves in the queue, or the 404
      it raises when no message matches. */
  function AfterDelete(messages: set<QueueMessage>, messageId: string, popReceipt: string)
    : (r: Result<set<QueueMessage>, QueueError>)
    ensures r.Failure? <==> !Holds(messages, messageId, popReceipt)
    ensures r.Failure? ==> r.error == MessageNotFound
    ensures r.Success? ==> r.value < messages
    ensures r.Success? ==> forall m :: m in messages ==>
              (m in r.value <==> !(m.messageId == messageId && m.popReceipt == popReceipt))
  {
    if Holds(messages, messageId, popReceipt) then
      var rest := set m | m in messages && !(m.messageId == messageId && m.popReceipt == popReceipt);
      var w :| w in messages && w.messageId == messageId && w.popReceipt == popReceipt;
      assert w !in rest;
      Success(rest)
    else
      Failure(MessageNotFound)
  }

  class MessageQueue {
    var messages: set<QueueMessage>

    constructor (messages: set<QueueMessage>)
      ensures this.messages == messages
    {
      this.messages := messages;
    }

    /** Receives up to `maxMessages` distinct messages of the queue. Which
        visible messages the service hands out, and the lease that hides them
        for the visibility timeout, are the service's business and are not
        modelled: any batch of at most `maxMessages` held messages may come back. */
    method DequeueMessages(maxMessages: int, outage: bool) returns (r: Result<seq<QueueMessage>, QueueError>)
      ensures outage ==> r == Failure(QueueUnavailable)
      ensures !outage && !(1 <= maxMessages <= MaxBatchSize) ==> r == Failure(InvalidBatchSize)
      ensures !outage && 1 <= maxMessages <= MaxBatchSize ==> r.Success?
      ensures r.Success? ==> |r.value| <= maxMessages
      ensures r.Success? ==> forall i :: 0 <= i < |r.value| ==> r.value[i] in messages
      ensures r.Success? ==> forall i, j :: 0 <= i < j < |r.value| ==> r.value[i] != r.value[j]
    {
      if outage {
        return Failure(QueueUnavailable);
      }
      if !(1 <= maxMessages <= MaxBatchSize) {
        return Failure(InvalidBatchSize);
      }
      var none: seq<QueueMessage> := [];
      assert |none| <= maxMessages;
      var batch :| |batch| <= maxMessages
                   && (forall i :: 0 <= i < |batch| ==> batch[i] in messages)
                   && (forall i, j :: 0 <= i < j < |batch| ==> batch[i] != batch[j]);
      r := Success(batch);
    }

    /** Deletes the message with this id if it is held under this receipt;
        otherwise raises (404), leaving the queue as it was. */
    method DeleteMessage(messageId: string, popReceipt: string, outage: bool) returns (r: Outcome<QueueError>)
      modifies this
      ensures outage ==> r == Fail(QueueUnavailable) && messages == old(messages)
      ensures !outage ==> match AfterDelete(old(messages), messageId, popReceipt)
                          case Success(rest) => r == Pass && messages == rest
                          case Failure(e) => r == Fail(e) && messages == old(messages)
    {
      if outage {
        return Fail(QueueUnavailable);
      }
      var after := AfterDelete(messages, messageId, popReceipt);
      match after {
        case Success(rest) =>
          messages := rest;
          r := Pass;
        case Failure(e) =>
          r := Fail(e);
      }
    }
  }
}
