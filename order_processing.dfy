/** The order-processing worker: for each message it receives from the
    "order-processing" queue it decodes an order, walks its items against the
    "Products" table, then deletes the message; a timer, armed at start and
    disarmed at stop, drives the polling. */
module OrderProcessing {
  import opened Wrappers
  import opened TableStorage
  import opened QueueStorage
  import opened Orders

  /** At most this many messages are received per poll. */
  const MessagesPerPoll: int := 1

  /** The timer fires at once, then every 30 seconds. */
  const PollDueTimeMs: int := 0
  const PollPeriodMs: int := 30_000

  /** Which service call, if any, fails while one message is handled: the
      product read or the product write made for the item at that index, or
      the final delete. A null element of Items, or a null ProductId, raises
      at the same point as a failed read and is covered by GetFails. */
  datatype Outage =
    | NoOutage
    | GetFails(item: nat)
    | UpdateFails(item: nat)
    | DeleteFails

  /** The exceptions that escape the handling of one message. */
  datatype Exception =
    | NullReference         // the order or its Items list decoded to null
    | Store(StoreError)     // a product read or write failed
    | Queue(QueueError)     // the delete failed

  /** How the handling of one message ended. */
  datatype Handling =
    | Completed             // every item visited, message deleted
    | JsonRejected          // JsonException caught and logged: nothing written, nothing deleted
    | Threw(ex: Exception)  // an exception escaped to the per-message catch of the poll

  /** The state the worker reads and changes: the "Products" table and the
      messages held by the "order-processing" queue. */
  datatype World = World(products: map<Key, ProductEntity>, messages: set<QueueMessage>)

  datatype Step = Step(world: World, handling: Handling)

  datatype BatchRun = BatchRun(world: World, handlings: seq<Handling>)

  /** How many items are fully handled before a failing call stops the loop:
      all of them when nothing fails inside the loop. */
  function Halt(products: map<Key, ProductEntity>, items: seq<OrderItem>, outage: Outage): (h: nat)
    ensures h <= |items|
    ensures h < |items| <==>
              || (outage.GetFails? && outage.item < |items|)
              || (outage.UpdateFails? && outage.item < |items|
                  && Fills(ApplyItems(products, items[..outage.item]), items[outage.item]))
  {
    match outage
    case GetFails(k) => if k < |items| then k else |items|
    case UpdateFails(k) =>
      if k < |items| && Fills(ApplyItems(products, items[..k]), items[k]) then k else |items|
    case _ => |items|
  }

  /** The loop stops at item i, having got that far, exactly when that item's
      read fails, or its write fails and it would have written. */
  lemma HaltAt(products: map<Key, ProductEntity>, items: seq<OrderItem>, outage: Outage, i: nat)
    requires i < |items| && i <= Halt(products, items, outage)
    ensures Halt(products, items, outage) == i <==>
              outage == GetFails(i) || (outage == UpdateFails(i) && Fills(ApplyItems(products, items[..i]), items[i]))
  {
  }

  /** The handling of one message, as ProcessOrderAsync performs it. */
  function Process(w: World, message: QueueMessage, decoded: Decoded, outage: Outage): (s: Step)
    ensures s.world.products.Keys == w.products.Keys
    ensures s.world.messages <= w.messages
    ensures s.handling != Completed ==> s.world.messages == w.messages
    ensures !decoded.Decoded? ==> s.world == w
  {
    match decoded
    case JsonError => Step(w, JsonRejected)
    case NullOrderOrItems => Step(w, Threw(NullReference))
    case Decoded(order) =>
      var h := Halt(w.products, order.items, outage);
      var products := ApplyItems(w.products, order.items[..h]);
      if h < |order.items| then
        Step(World(products, w.messages), Threw(Store(StoreUnavailable)))
      else if outage == DeleteFails then
        Step(World(products, w.messages), Threw(Queue(QueueUnavailable)))
      else
        match AfterDelete(w.messages, message.messageId, message.popReceipt)
        case Failure(e) => Step(World(products, w.messages), Threw(Queue(e)))
        case Success(rest) => Step(World(products, rest), Completed)
  }

  /** The loop of one poll over the received batch: each message is handled
      whatever became of the ones before it. */
  function ProcessBatch(w: World, batch: seq<QueueMessage>, decode: string -> Decoded, outages: QueueMessage -> Outage)
    : (r: BatchRun)
    ensures |r.handlings| == |batch|
    decreases |batch|
  {
    if batch == [] then BatchRun(w, [])
    else
      var before := ProcessBatch(w, batch[..|batch| - 1], decode, outages);
      var last := batch[|batch| - 1];
      var s := Process(before.world, last, decode(last.messageText), outages(last));
      BatchRun(s.world, before.handlings + [s.handling])
  }

  // ---- What handling one message promises ----

  /** The message leaves the queue exactly when the handling completes, and
      that happens exactly when the order decoded, no call failed, and the
      message was still held under its receipt. */
  lemma DeletedIffCompleted(w: World, message: QueueMessage, decoded: Decoded, outage: Outage)
    ensures var s := Process(w, message, decoded, outage);
            && s.world.messages <= w.messages
            && (s.world.messages != w.messages <==> s.handling == Completed)
            && (s.handling == Completed <==>
                  && decoded.Decoded?
                  && Halt(w.products, decoded.order.items, outage) == |decoded.order.items|
                  && outage != DeleteFails
                  && Holds(w.messages, message.messageId, message.popReceipt))
  {
  }

  /** The message is deleted whatever happened to the individual items: with
      no failing call, every item is applied or skipped in turn and the
      message is gone afterwards, even when every item was skipped. */
  lemma DeletedWhateverTheItems(w: World, message: QueueMessage, order: Order)
    requires message in w.messages
    ensures var s := Process(w, message, Decoded(order), NoOutage);
            && s.handling == Completed
            && s.world.products == ApplyItems(w.products, order.items)
            && message !in s.world.messages
  {
    assert order.items[..|order.items|] == order.items;
    assert Holds(w.messages, message.messageId, message.popReceipt);
  }

  /** A JsonException while decoding: no write, no delete. */
  lemma JsonErrorChangesNothing(w: World, message: QueueMessage, outage: Outage)
    ensures Process(w, message, JsonError, outage) == Step(w, JsonRejected)
  {
  }

  /** A null order or null Items: the NullReferenceException escapes before
      any write, and the message stays. */
  lemma NullOrderChangesNothing(w: World, message: QueueMessage, outage: Outage)
    ensures Process(w, message, NullOrderOrItems, outage) == Step(w, Threw(NullReference))
  {
  }

  /** A store failure at item k escapes: the message stays, and the writes of
      the items before k stay applied. */
  lemma StoreFailureKeepsEarlierWrites(w: World, message: QueueMessage, order: Order, k: nat)
    requires k < |order.items|
    ensures var s := Process(w, message, Decoded(order), GetFails(k));
            && s.handling == Threw(Store(StoreUnavailable))
            && s.world.messages == w.messages
            && s.world.products == ApplyItems(w.products, order.items[..k])
  {
  }

  /** A write failing at item k escapes: item k is not applied, the message
      stays, and the writes of the items before k stay applied. */
  lemma WriteFailureKeepsEarlierWrites(w: World, message: QueueMessage, order: Order, k: nat)
    requires k < |order.items|
    requires Fills(ApplyItems(w.products, order.items[..k]), order.items[k])
    ensures var s := Process(w, message, Decoded(order), UpdateFails(k));
            && s.handling == Threw(Store(StoreUnavailable))
            && s.world.messages == w.messages
            && s.world.products == ApplyItems(w.products, order.items[..k])
  {
    HaltAt(w.products, order.items, UpdateFails(k), k);
  }

  /** A delete failing after the loop escapes: every item has been handled,
      its writes stay applied, and the message stays. */
  lemma DeleteFailureKeepsAllWrites(w: World, message: QueueMessage, order: Order)
    ensures var s := Process(w, message, Decoded(order), DeleteFails);
            && s.handling == Threw(Queue(QueueUnavailable))
            && s.world.messages == w.messages
            && s.world.products == ApplyItems(w.products, order.items)
  {
    assert order.items[..|order.items|] == order.items;
  }

  /** Only rows named by the order's items can change, and of those only the
      stock; every other row of the table is left as it was. */
  lemma {:induction false} ProcessTouchesOnlyNamedRows(w: World, message: QueueMessage, decoded: Decoded, outage: Outage, k: Key)
    requires k in w.products
    ensures var s := Process(w, message, decoded, outage);
            && s.world.products.Keys == w.products.Keys
            && s.world.products[k] == w.products[k].(quantityInStock := s.world.products[k].quantityInStock)
            && ((!decoded.Decoded? || forall i :: 0 <= i < |decoded.order.items| ==> ProductAddress(decoded.order.items[i].productId) != k)
                ==> s.world.products[k] == w.products[k])
  {
    if decoded.Decoded? {
      var items := decoded.order.items;
      var h := Halt(w.products, items, outage);
      OnlyStockChanges(w.products, items[..h], k);
      if forall i :: 0 <= i < |items| ==> ProductAddress(items[i].productId) != k {
        forall i | 0 <= i < h ensures ProductAddress(items[..h][i].productId) != k {
          assert items[..h][i] == items[i];
        }
        UnnamedRowUnchanged(w.products, items[..h], k);
      }
    }
  }

  /** Stock that starts non-negative stays non-negative when the order asks
      for non-negative quantities, whichever calls fail. */
  lemma {:induction false} ProcessKeepsStockNonNegative(w: World, message: QueueMessage, decoded: Decoded, outage: Outage)
    requires StockNonNegative(w.products)
    requires decoded.Decoded? ==> QuantitiesNonNegative(decoded.order.items)
    ensures StockNonNegative(Process(w, message, decoded, outage).world.products)
  {
    if decoded.Decoded? {
      var items := decoded.order.items;
      var h := Halt(w.products, items, outage);
      assert QuantitiesNonNegative(items[..h]) by {
        forall i | 0 <= i < h ensures items[..h][i].quantity >= 0 {
          assert items[..h][i] == items[i];
        }
      }
      StockStaysNonNegative(w.products, items[..h]);
    }
  }

  /** Three worked cases, as the code handles them. A single item the stock
      covers: stock 5 less 2 leaves 3, message deleted. */
  lemma CoveredItemApplied(product: ProductEntity, message: QueueMessage)
    requires product.partitionKey == ProductsPartition && product.rowKey == "P1" && product.quantityInStock == 5
    ensures var w := World(map[ProductKeyOf(product) := product], {message});
            var s := Process(w, message, Decoded(Order("O1", [OrderItem("P1", 2)])), NoOutage);
            && s.handling == Completed
            && s.world.products == map[ProductKeyOf(product) := product.(quantityInStock := 3)]
            && s.world.messages == {}
  {
    var items := [OrderItem("P1", 2)];
    assert items[..1] == items;
    assert items[..0] == [];
    assert Holds({message}, message.messageId, message.popReceipt);
  }

  /** An item the stock does not cover (10 asked, 3 held) is skipped, and the
      message is deleted all the same: it is not kept for a retry. */
  lemma UncoveredItemSkippedMessageDeleted(product: ProductEntity, message: QueueMessage)
    requires product.partitionKey == ProductsPartition && product.rowKey == "P2" && product.quantityInStock == 3
    ensures var w := World(map[ProductKeyOf(product) := product], {message});
            var s := Process(w, message, Decoded(Order("O2", [OrderItem("P2", 10)])), NoOutage);
            && s.handling == Completed
            && s.world.products == w.products
            && s.world.messages == {}
  {
    var items := [OrderItem("P2", 10)];
    assert items[..1] == items;
    assert items[..0] == [];
    assert Holds({message}, message.messageId, message.popReceipt);
  }

  /** One item covered, one naming a missing product: the first is applied,
      the second skipped, and the message is deleted. */
  lemma MissingProductSkippedMessageDeleted(product: ProductEntity, message: QueueMessage)
    requires product.partitionKey == ProductsPartition && product.rowKey == "P1" && product.quantityInStock == 5
    ensures var w := World(map[ProductKeyOf(product) := product], {message});
            var s := Process(w, message, Decoded(Order("O3", [OrderItem("P1", 1), OrderItem("P9", 1)])), NoOutage);
            && s.handling == Completed
            && s.world.products == map[ProductKeyOf(product) := product.(quantityInStock := 4)]
            && s.world.messages == {}
  {
    var items := [OrderItem("P1", 1), OrderItem("P9", 1)];
    var w := World(map[ProductKeyOf(product) := product], {message});
    ApplyItemsStep(w.products, items, 0);
    ApplyItemsStep(w.products, items, 1);
    assert items[..0] == [] && items[..2] == items;
    assert Holds({message}, message.messageId, message.popReceipt);
  }

  // ---- What one poll promises ----

  /** Handling a batch in two parts is handling the second part from where
      the first left off: no message's handling depends on how the ones
      before it ended, only on the state they left. */
  lemma {:induction false} ProcessBatchAppend(w: World, a: seq<QueueMessage>, b: seq<QueueMessage>,
                                              decode: string -> Decoded, outages: QueueMessage -> Outage)
    ensures var first := ProcessBatch(w, a, decode, outages);
            var second := ProcessBatch(first.world, b, decode, outages);
            ProcessBatch(w, a + b, decode, outages) == BatchRun(second.world, first.handlings + second.handlings)
    decreases |b|
  {
    if b == [] {
      assert a + b == a;
    } else {
      var front := b[..|b| - 1];
      assert (a + b)[..|a + b| - 1] == a + front;
      assert (a + b)[|a + b| - 1] == b[|b| - 1];
      ProcessBatchAppend(w, a, front, decode, outages);
      var first := ProcessBatch(w, a, decode, outages);
      var mid := ProcessBatch(first.world, front, decode, outages);
      assert first.handlings + mid.handlings + [Process(mid.world, b[|b| - 1], decode(b[|b| - 1].messageText), outages(b[|b| - 1])).handling]
          == first.handlings + (mid.handlings + [Process(mid.world, b[|b| - 1], decode(b[|b| - 1].messageText), outages(b[|b| - 1])).handling]);
    }
  }

  /** Stock that starts non-negative stays non-negative through a whole poll
      when every order that decodes asks for non-negative quantities. */
  lemma {:induction false} BatchKeepsStockNonNegative(w: World, batch: seq<QueueMessage>,
                                                      decode: string -> Decoded, outages: QueueMessage -> Outage)
    requires StockNonNegative(w.products)
    requires forall i :: 0 <= i < |batch| && decode(batch[i].messageText).Decoded? ==>
               QuantitiesNonNegative(decode(batch[i].messageText).order.items)
    ensures StockNonNegative(ProcessBatch(w, batch, decode, outages).world.products)
    decreases |batch|
  {
    if batch != [] {
      var front := batch[..|batch| - 1];
      var last := batch[|batch| - 1];
      forall i | 0 <= i < |front| && decode(front[i].messageText).Decoded?
        ensures QuantitiesNonNegative(decode(front[i].messageText).order.items)
      {
        assert front[i] == batch[i];
      }
      BatchKeepsStockNonNegative(w, front, decode, outages);
      var before := ProcessBatch(w, front, decode, outages);
      ProcessKeepsStockNonNegative(before.world, last, decode(last.messageText), outages(last));
    }
  }

  /** A poll never adds messages, and removes only messages of its batch. */
  lemma {:induction false} BatchRemovesOnlyItsMessages(w: World, batch: seq<QueueMessage>,
                                                       decode: string -> Decoded, outages: QueueMessage -> Outage)
    ensures var r := ProcessBatch(w, batch, decode, outages);
            && r.world.messages <= w.messages
            && forall m :: m in w.messages && m !in r.world.messages ==>
                 exists i :: 0 <= i < |batch| && batch[i].messageId == m.messageId && batch[i].popReceipt == m.popReceipt
    decreases |batch|
  {
    if batch != [] {
      var front := batch[..|batch| - 1];
      var last := batch[|batch| - 1];
      BatchRemovesOnlyItsMessages(w, front, decode, outages);
      var before := ProcessBatch(w, front, decode, outages);
      var s := Process(before.world, last, decode(last.messageText), outages(last));
      DeletedIffCompleted(before.world, last, decode(last.messageText), outages(last));
      forall m | m in w.messages && m !in s.world.messages
        ensures exists i :: 0 <= i < |batch| && batch[i].messageId == m.messageId && batch[i].popReceipt == m.popReceipt
      {
        if m in before.world.messages {
          assert s.handling == Completed;
          assert m.messageId == last.messageId && m.popReceipt == last.popReceipt;
          assert batch[|batch| - 1] == last;
        } else {
          var i :| 0 <= i < |front| && front[i].messageId == m.messageId && front[i].popReceipt == m.popReceipt;
          assert batch[i] == front[i];
        }
      }
    }
  }

  // ---- Timer lifecycle ----

  /** The state of the worker's timer: firing on a schedule, stopped, or disposed. */
  datatype TimerState = Armed(dueTimeMs: int, periodMs: int) | Disarmed | Disposed

  /** Changing a timer that was disposed raises ObjectDisposedException. */
  datatype LifecycleError = ObjectDisposed

  class OrderProcessingService {
    /** The `_timer` field; None until the first start. */
    var timer: Option<TimerState>

    constructor ()
      ensures timer == None
    {
      timer := None;
    }

    /** Whether the timer is scheduled to fire polls. */
    predicate Polling()
      reads this
    {
      timer.Some? && timer.value.Armed?
    }

    /** Arms a new timer: first poll at once, then every 30 seconds. A timer
        from an earlier start is replaced in the field, not disposed. */
    method StartAsync()
      modifies this
      ensures timer == Some(Armed(PollDueTimeMs, PollPeriodMs))
      ensures Polling()
    {
      timer := Some(Armed(PollDueTimeMs, PollPeriodMs));
    }

    /** Disarms the timer if there is one; in-flight polls are not interrupted. */
    method StopAsync() returns (r: Outcome<LifecycleError>)
      modifies this
      ensures old(timer) == None ==> r == Pass && timer == None
      ensures old(timer) == Some(Disposed) ==> r == Fail(ObjectDisposed) && timer == old(timer)
      ensures old(timer).Some? && old(timer) != Some(Disposed) ==> r == Pass && timer == Some(Disarmed)
      ensures !Polling()
    {
      match timer {
        case None =>
          r := Pass;
        case Some(state) =>
          if state == Disposed {
            r := Fail(ObjectDisposed);
          } else {
            timer := Some(Disarmed);
            r := Pass;
          }
      }
    }

    /** Releases the timer if there is one. */
    method Dispose()
      modifies this
      ensures old(timer) == None ==> timer == None
      ensures old(timer).Some? ==> timer == Some(Disposed)
      ensures !Polling()
    {
      if timer.Some? {
        timer := Some(Disposed);
      }
    }

    /** One iteration of the inventory loop: re-read the item's row and, when
        it covers the quantity, write it back with the stock lowered. The read
        fails when `readFails`; the write, if one is made, when `writeFails`. */
    method VisitItem(item: OrderItem, store: TableStorageService, readFails: bool, writeFails: bool)
      returns (failure: Option<StoreError>)
      requires store.Valid()
      modifies store
      ensures store.Valid()
      ensures store.customers == old(store.customers)
      ensures failure.Some? <==> readFails || (writeFails && Fills(old(store.products), item))
      ensures failure.Some? ==> failure.value == StoreUnavailable && store.products == old(store.products)
      ensures failure.None? ==> store.products == ApplyItem(old(store.products), item)
    {
      var found := store.GetProduct(ProductsPartition, item.productId, readFails);
      if found.Failure? {
        return Some(found.error);
      }
      match found.value {
        case Some(product) =>
          if product.quantityInStock >= item.quantity {
            var updated := product.(quantityInStock := Int32Math.Sub32(product.quantityInStock, item.quantity));
            var written := store.UpdateProduct(updated, writeFails);
            if written.Fail? {
              return Some(written.error);
            }
          }
        case None =>
      }
      return None;
    }

    /** The inventory loop of ProcessOrderAsync: the items visited in list
        order. A failing store call ends the loop and its error is returned. */
    method UpdateInventory(items: seq<OrderItem>, store: TableStorageService, outage: Outage)
      returns (failure: Option<StoreError>)
      requires store.Valid()
      modifies store
      ensures store.Valid()
      ensures store.customers == old(store.customers)
      ensures var h := Halt(old(store.products), items, outage);
              && store.products == ApplyItems(old(store.products), items[..h])
              && (failure.Some? <==> h < |items|)
              && (failure.Some? ==> failure.value == StoreUnavailable)
    {
      ghost var initial := store.products;
      var i := 0;
      while i < |items|
        invariant 0 <= i <= Halt(initial, items, outage)
        invariant store.Valid()
        invariant store.products == ApplyItems(initial, items[..i])
        invariant store.customers == old(store.customers)
      {
        ApplyItemsStep(initial, items, i);
        HaltAt(initial, items, outage, i);
        failure := VisitItem(items[i], store, outage == GetFails(i), outage == UpdateFails(i));
        if failure.Some? {
          return;
        }
        i := i + 1;
      }
      assert items[..|items|] == items;
      return None;
    }

    /** ProcessOrderAsync: decode, update the inventory, then delete the
        message whatever became of the individual items. A JsonException is
        caught here; every other exception is returned as Threw for the
        caller's catch. */
    method ProcessOrder(message: QueueMessage, store: TableStorageService, queue: MessageQueue,
                        decode: string -> Decoded, outage: Outage) returns (handling: Handling)
      requires store.Valid()
      modifies store, queue
      ensures store.Valid()
      ensures store.customers == old(store.customers)
      ensures var s := Process(World(old(store.products), old(queue.messages)), message, decode(message.messageText), outage);
              store.products == s.world.products && queue.messages == s.world.messages && handling == s.handling
    {
      var decoded := decode(message.messageText);
      match decoded {
        case JsonError =>
          return JsonRejected;
        case NullOrderOrItems =>
          return Threw(NullReference);
        case Decoded(order) =>
          var failure := UpdateInventory(order.items, store, outage);
          if failure.Some? {
            return Threw(Store(failure.value));
          }
          var deleted := queue.DeleteMessage(message.messageId, message.popReceipt, outage == DeleteFails);
          if deleted.Fail? {
            return Threw(Queue(deleted.error));
          }
          return Completed;
      }
    }

    /** DoWorkAsync: receive at most one message from "order-processing" and
        handle each received message, catching whatever it throws so that the
        next one is still handled. */
    method DoWork(store: TableStorageService, queue: MessageQueue, decode: string -> Decoded,
                  outages: QueueMessage -> Outage, receiveFails: bool)
      returns (received: Result<seq<QueueMessage>, QueueError>, handlings: seq<Handling>)
      requires store.Valid()
      modifies store, queue
      ensures store.Valid()
      ensures store.customers == old(store.customers)
      ensures receiveFails <==> received.Failure?
      ensures received.Failure? ==>
                handlings == [] && store.products == old(store.products) && queue.messages == old(queue.messages)
      ensures received.Success? ==>
                && |received.value| <= MessagesPerPoll
                && (forall i :: 0 <= i < |received.value| ==> received.value[i] in old(queue.messages))
                && var r := ProcessBatch(World(old(store.products), old(queue.messages)), received.value, decode, outages);
                   store.products == r.world.products && queue.messages == r.world.messages && handlings == r.handlings
    {
      received := queue.DequeueMessages(MessagesPerPoll, receiveFails);
      handlings := [];
      if received.Failure? {
        return;
      }
      var batch := received.value;
      ghost var start := World(store.products, queue.messages);
      for i := 0 to |batch|
        invariant store.Valid()
        invariant store.customers == old(store.customers)
        invariant var r := ProcessBatch(start, batch[..i], decode, outages);
                  store.products == r.world.products && queue.messages == r.world.messages && handlings == r.handlings
      {
        assert batch[..i + 1][..i] == batch[..i];
        var handling := ProcessOrder(batch[i], store, queue, decode, outages(batch[i]));
        handlings := handlings + [handling];
      }
      assert batch[..|batch|] == batch;
    }
  }
}
