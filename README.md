# Order-processing worker of ComprehensiveStorageApp, in Dafny

This project models the background worker of ComprehensiveStorageApp and the
entity store it works against.

The worker (`OrderProcessingService`) polls the `"order-processing"` queue on a
timer once `StartAsync` has been called. In this program nothing calls it:
Program.cs:15 registers `OrderProcessingService` with `AddScoped`, not
`AddHostedService`, and no code resolves it, so no host arms the timer and the
orders enqueued by the orders controller are never handled. The model describes
the class as a host would drive it. Each poll receives at most one message with a 5-minute visibility
timeout. For each message, the worker:

1. decodes the text into an `Order`: an `OrderId` and a list of `OrderItem`s,
   each a `ProductId` and an int `Quantity`;
2. walks the items in list order. For each item it reads the row
   `("Products", ProductId)`. If the row exists and its `QuantityInStock`
   is at least `Quantity`, the worker lowers the stock by `Quantity` and
   writes the whole row back. Otherwise it logs and goes on to the next item;
3. deletes the message after the loop, whatever happened to the items.

A `JsonException` during decoding is caught inside the handler, so nothing is
written and nothing is deleted. Any other exception escapes to the poll's
per-message catch, and the next message is still handled. Such exceptions
include a null order, null `Items`, or a failing store or queue call. When one
escapes, the message stays in the queue and writes already made stay applied.

The entity store (`TableStorageService`) is modelled as two in-memory tables,
"Customers" and "Products". Each is a map from `(PartitionKey, RowKey)` to the
entity.
- Reads return `None` for a missing row. The service reports that case as 404
  and the code turns it into `null`.
- Adds fail on a taken key.
- Updates replace the whole row, with no concurrency check (`ETag.All`,
  `TableUpdateMode.Replace`). An update of a missing row fails.
- Deleting a missing row is not an error.
- `GetAll*` lists every row of its table exactly once.

The queue is abstract: a set of messages, each with a `MessageId`, a
`PopReceipt` and its text. A receive hands out at most the requested number of
held messages. A delete removes the message with that id and receipt, or fails
with 404.

Things outside the program are parameters:
- JSON decoding is a function parameter `decode: string -> Decoded` with three
  outcomes: an order, a `JsonException`, or null order/`Items`.
- A failure of a service call (network, throttling) is an `outage` flag on
  each store and queue call.
- Per message, an `Outage` says which call of the handling fails: the read or
  the write for item `k`, or the delete.

Integers are C# `int`. `QuantityInStock -= Quantity` is modelled as unchecked
32-bit subtraction (`Int32Math.Sub32`), the C# default.

Modules:
- `Wrappers`: `Option`, `Result` and `Outcome`.
- `Int32Math`: the `Int32` range and wrapping subtraction.
- `TableStorage`: entities and the two-table store class.
- `QueueStorage`: messages and the abstract queue class.
- `Orders`: the decoded order and the inventory loop as a function
  (`ApplyItems`), with its lemmas.
- `OrderProcessing`: the handling of one message (`Process`) and of one poll
  (`ProcessBatch`) as functions, with their lemmas. It also holds the service
  class. The class's methods `ProcessOrder` and `DoWork` are proved against
  those functions, and its timer lifecycle is `StartAsync`, `StopAsync` and
  `Dispose`.

### Behaviour worth knowing

- **Delete after partial failure.** The message is deleted after the loop
  even when some or all items were skipped for a missing product or short
  stock. A skipped item is not retried. See
  `OrderProcessing.UncoveredItemSkippedMessageDeleted`,
  `OrderProcessing.MissingProductSkippedMessageDeleted` and
  `OrderProcessing.DeletedWhateverTheItems`.
- **No per-item outcome.** A skipped item is only logged. No result records
  which items were applied, and the model records none either.
- **Decoding errors.** A `JsonException` is caught inside the handler. A null
  order or null `Items` raises `NullReferenceException`, which escapes to the
  poll's catch. In both cases nothing is written and nothing is deleted.
- **Quantity sign.** The quantity is never checked to be positive. A negative
  quantity that the row "covers" raises the stock
  (`Orders.NegativeQuantityRaisesStock`). Because `-=` on an `int` wraps, a
  quantity of `int.MinValue` against a row holding 0 stores `int.MinValue`
  (`Orders.MinValueQuantityWrapsStockNegative`). So stock is guaranteed to
  stay non-negative (`Orders.StockStaysNonNegative`) only for orders with
  non-negative quantities. More exactly, a written stock is non-negative
  exactly when the unbounded difference fits in an `int` (`Orders.ApplyItem`).
- **Unconditional update.** The write-back uses `ETag.All`, so it replaces the
  row whatever was written since the read.
- **Stale receipt.** If the message's receipt is no longer valid, the delete's
  404 escapes the handler and is caught and logged by the poll. The message
  stays in the queue.

## Model

| member | source | states |
|---|---|---|
| Int32Math.Sub32 | Services/OrderProcessingService.cs:95 | `a - b` on C# `int`, unchecked: congruent to the true difference modulo 2^32; equal to it when it fits; negative when the true difference overflows upward |
| TableStorage.CollectRows | Services/TableStorageService.cs:192-200 | the `await foreach` that appends query results: every listed row is the row stored under its own key, no key is listed twice, every stored row is listed |
| TableStorage.TableStorageService.constructor | Services/TableStorageService.cs:15-19 | the store starts holding the given tables, each row stored under its own (PartitionKey, RowKey) |
| TableStorage.TableStorageService.GetCustomer | Services/TableStorageService.cs:42-59 | a missing row (404) gives None, a present row gives exactly that row; any other failure is raised |
| TableStorage.TableStorageService.AddCustomer | Services/TableStorageService.cs:61-73 | stores the entity at its key; a taken key fails (409) and changes nothing; Products untouched |
| TableStorage.TableStorageService.UpdateCustomer | Services/TableStorageService.cs:75-87 | replaces the whole row with no concurrency check; a missing row fails and changes nothing; Products untouched |
| TableStorage.TableStorageService.DeleteCustomer | Services/TableStorageService.cs:89-101 | removes the row, and removing a missing row is not an error; Products untouched |
| TableStorage.TableStorageService.GetAllCustomers | Services/TableStorageService.cs:103-123 | lists every row of Customers exactly once and nothing else; any failure is raised |
| TableStorage.TableStorageService.GetProduct | Services/TableStorageService.cs:126-143 | a missing row (404) gives None, a present row gives exactly that row; any other failure is raised |
| TableStorage.TableStorageService.AddProduct | Services/TableStorageService.cs:145-157 | stores the entity at its key; a taken key fails (409) and changes nothing; Customers untouched |
| TableStorage.TableStorageService.UpdateProduct | Services/TableStorageService.cs:159-171 | replaces the whole row with no concurrency check; a missing row fails and changes nothing; Customers untouched |
| TableStorage.TableStorageService.DeleteProduct | Services/TableStorageService.cs:173-185 | removes the row, and removing a missing row is not an error; Customers untouched |
| TableStorage.TableStorageService.GetAllProducts | Services/TableStorageService.cs:187-207 | lists every row of Products exactly once and nothing else; any failure is raised |
| TableStorage.UpdateThenGetProduct | Services/TableStorageService.cs:126-171 | after a successful replacement, reading the row gives back exactly the entity written; Customers untouched |
| TableStorage.DeleteThenGetProduct | Services/TableStorageService.cs:126-185 | after a delete, reading the row gives None |
| QueueStorage.AfterDelete | Services/QueueStorageService.cs:35-39 | a delete by (MessageId, PopReceipt) fails with 404 exactly when no held message matches; otherwise it removes exactly the matching messages and nothing else |
| QueueStorage.MessageQueue.constructor | Services/QueueStorageService.cs:12-15 | the queue starts holding the given messages |
| QueueStorage.MessageQueue.DequeueMessages | Services/QueueStorageService.cs:29-33 | returns at most `maxMessages` distinct held messages; a batch size outside 1..32 or a service failure is raised |
| QueueStorage.MessageQueue.DeleteMessage | Services/QueueStorageService.cs:35-39 | removes the message held under that id and receipt, or raises and leaves the queue as it was |
| Orders.ApplyItem | Services/OrderProcessingService.cs:92-102 | a row that is missing or short of stock leaves the table unchanged; otherwise only that row's stock changes, by exactly the quantity when no wrap occurs, and the written stock is non-negative exactly when the difference fits in an int |
| Orders.ApplyItems | Services/OrderProcessingService.cs:90-103 | the items applied one after the other, each on the table the earlier ones left: no row is added or removed, and rows stay under their own keys |
| Orders.ApplyItemsStep | Services/OrderProcessingService.cs:90-96 | handling item i continues from the table items 0..i-1 left |
| Orders.ApplyItemsAppend | Services/OrderProcessingService.cs:90-103 | applying a list split in two is applying the second part to what the first part left (order and compounding) |
| Orders.UnnamedRowUnchanged | Services/OrderProcessingService.cs:92-96 | a row that no item names is unchanged |
| Orders.OtherPartitionUnchanged | Services/OrderProcessingService.cs:92 | no row outside the "Products" partition changes |
| Orders.OnlyStockChanges | Services/OrderProcessingService.cs:92-96 | of any row, only QuantityInStock can change |
| Orders.StockStaysNonNegative | Services/OrderProcessingService.cs:93-95 | with non-negative quantities, non-negative stock stays non-negative and never rises |
| Orders.Demand | Services/OrderProcessingService.cs:90-96 | the total quantity an order asks of one product, non-negative when every quantity is |
| Orders.DemandMet | Services/OrderProcessingService.cs:90-96 | repeated items for a product compound: when the stock covers the total asked, the stock drops by exactly that total |
| Orders.SecondItemSeesFirstDecrement | Services/OrderProcessingService.cs:90-96 | a second item for a product reads the stock left by the first and is skipped when that no longer covers it |
| Orders.NegativeQuantityRaisesStock | Services/OrderProcessingService.cs:93-95 | a negative quantity is not rejected and raises the stock |
| Orders.MinValueQuantityWrapsStockNegative | Services/OrderProcessingService.cs:93-95 | a quantity of int.MinValue against a row holding 0 passes the check and stores int.MinValue |
| OrderProcessing.Halt | Services/OrderProcessingService.cs:90-103 | the loop stops early exactly when an item's read fails, or its write fails when it would have written |
| OrderProcessing.HaltAt | Services/OrderProcessingService.cs:90-96 | having got to item i, the loop stops there exactly when that item's read fails or its needed write fails |
| OrderProcessing.Process | Services/OrderProcessingService.cs:79-115 | handling a message never adds or removes rows and never adds messages; only a completed handling removes one; a message that does not decode to an order changes nothing |
| OrderProcessing.ProcessBatch | Services/OrderProcessingService.cs:64-75 | every received message gets a handling, whatever became of the ones before |
| OrderProcessing.DeletedIffCompleted | Services/OrderProcessingService.cs:84-115 | the message is removed exactly when the handling completes, and that happens exactly when the order decoded, no call failed and the message was held under its receipt |
| OrderProcessing.DeletedWhateverTheItems | Services/OrderProcessingService.cs:90-106 | with no failing call, every item is applied or skipped and the message is deleted, even if every item was skipped |
| OrderProcessing.JsonErrorChangesNothing | Services/OrderProcessingService.cs:110-114 | a JsonException is caught: nothing is written, nothing is deleted |
| OrderProcessing.NullOrderChangesNothing | Services/OrderProcessingService.cs:87-90 | a null order or null Items raises before any write, and the message stays |
| OrderProcessing.StoreFailureKeepsEarlierWrites | Services/OrderProcessingService.cs:90-106 | a read failing at item k raises: the message stays, and the writes of items 0..k-1 stay applied |
| OrderProcessing.WriteFailureKeepsEarlierWrites | Services/OrderProcessingService.cs:90-106 | a write failing at item k, whose row covers it, raises: the message stays, item k is not applied, and the writes of items 0..k-1 stay applied |
| OrderProcessing.DeleteFailureKeepsAllWrites | Services/OrderProcessingService.cs:90-106 | a failing delete raises after the loop: the message stays, and the writes of every item stay applied |
| OrderProcessing.ProcessTouchesOnlyNamedRows | Services/OrderProcessingService.cs:92-96 | handling a message changes only the stock of rows its items name |
| OrderProcessing.ProcessKeepsStockNonNegative | Services/OrderProcessingService.cs:93-95 | with non-negative quantities, non-negative stock stays non-negative whichever calls fail |
| OrderProcessing.CoveredItemApplied | Services/OrderProcessingService.cs:92-106 | stock 5, one item asking 2: stock becomes 3 and the message is deleted |
| OrderProcessing.UncoveredItemSkippedMessageDeleted | Services/OrderProcessingService.cs:93-106 | stock 3, one item asking 10: stock unchanged and the message is deleted anyway |
| OrderProcessing.MissingProductSkippedMessageDeleted | Services/OrderProcessingService.cs:90-106 | one covered item and one missing product: the first is applied, the second skipped, and the message is deleted |
| OrderProcessing.BatchKeepsStockNonNegative | Services/OrderProcessingService.cs:64-75 | a whole poll keeps non-negative stock non-negative when the orders ask for non-negative quantities |
| OrderProcessing.ProcessBatchAppend | Services/OrderProcessingService.cs:64-75 | handling a batch in two parts is handling the second from the state the first left, with the handlings concatenated |
| OrderProcessing.BatchRemovesOnlyItsMessages | Services/OrderProcessingService.cs:62-75 | a poll never adds messages and removes only messages of its own batch |
| OrderProcessing.OrderProcessingService.constructor | Services/OrderProcessingService.cs:17-24 | the service starts with no timer |
| OrderProcessing.OrderProcessingService.StartAsync | Services/OrderProcessingService.cs:26-36 | arms a timer that fires at once and then every 30 seconds |
| OrderProcessing.OrderProcessingService.StopAsync | Services/OrderProcessingService.cs:117-124 | disarms the timer if there is one; with no timer nothing happens; on a disposed timer it raises ObjectDisposedException; afterwards the timer in `_timer` does not fire |
| OrderProcessing.OrderProcessingService.Dispose | Services/OrderProcessingService.cs:126-129 | disposes the timer if there is one; afterwards the timer in `_timer` does not fire |
| OrderProcessing.OrderProcessingService.VisitItem | Services/OrderProcessingService.cs:91-102 | one iteration: fails exactly when the read fails or a needed write fails; on failure the table is unchanged, otherwise it is the table after that item |
| OrderProcessing.OrderProcessingService.UpdateInventory | Services/OrderProcessingService.cs:90-103 | the table after the loop is the items up to the stopping point applied in order; it fails exactly when the loop stopped early; Customers untouched |
| OrderProcessing.OrderProcessingService.ProcessOrder | Services/OrderProcessingService.cs:79-115 | the new table, queue and handling are those `Process` gives from the old ones; Customers untouched |
| OrderProcessing.OrderProcessingService.DoWork | Services/OrderProcessingService.cs:53-77 | receives at most one held message; the new table, queue and handlings are those `ProcessBatch` gives; a failed receive changes nothing |

## Left out

- Controllers, view models, `Program.cs`, blob and file-share services, and queue and table provisioning at startup (`CreateTablesIfNotExistsAsync`, `CreateQueueIfNotExistsAsync`) are not part of this model. They are HTTP plumbing, wiring and pass-through I/O.
- `EnqueueMessageAsync` is not modelled. The worker never sends messages.
- The timer's scheduling is not modelled. That covers the fire-and-forget `DoWorkWrapper`, the logging of faulted polls, and polls that overlap. Only the timer's state (armed, disarmed, disposed) is kept. This is concurrency.
- OrderProcessing.OrderProcessingService.StartAsync: a second start replaces the timer in the field without disposing the first one. The model keeps only the field's timer, so it does not capture that the earlier timer may go on firing.
- Concurrent orders racing on one product row, and ETag optimistic concurrency, are not modelled. The code uses `ETag.All` and handles one message at a time.
- The service scope and dependency-injection lookups in `DoWorkAsync` are not modelled. Neither are logging, entity `Timestamp` and `ETag`, or arithmetic on `Price`. `Price` is carried as an uninterpreted `real`.
- The JSON library is not modelled. Decoding is a function parameter with the three outcomes named above. A `Quantity` outside the int range is a `JsonException` of that library, so it counts as the JsonError outcome.
- A null element of `Items`, or a null `ProductId`, raises at the item it occurs in, before that item writes anything. This is represented by the same per-item failure as a failed product read (`GetFails(k)`).
- Service failures are not told apart. Network errors, throttling, and keys with characters the service refuses all become one error per component (`StoreUnavailable`, `QueueUnavailable`). A missing table or queue is not modelled, since both are created at startup.
- QueueStorage.MessageQueue.DequeueMessages: the visibility timeout, the lease, and the new pop receipt the service issues on each receive are not modelled. The receive does not promise a non-empty batch when messages are waiting. It promises only at most `maxMessages` distinct held messages.
- TableStorage.CollectRows: the order in which the service returns query results (by PartitionKey, then RowKey) is not modelled. The lists from `GetAllCustomers` and `GetAllProducts` are in an unspecified order.
- OrderProcessing.DeletedIffCompleted: a failed service call is taken to have had no effect. A real delete or update can take effect on the service and then lose its response, so the message can be gone, or the row written, although the handling raised.
- OrderProcessing.OrderProcessingService.VisitItem: a failed write is taken to have left the row as it was. A real update can reach the table and then fail on the way back, which this model does not capture.
- The model assumes the project is compiled without overflow checking, the C# default. With overflow checking on, the decrement would instead raise `OverflowException`, which would escape like a store failure.
