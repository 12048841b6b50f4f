# Synapse orders pipeline in Dafny

This project models the order-processing pipeline of the Synapse example
(`Program.cs`). The program runs in this sequence:

1. It fetches the medical-equipment orders from an orders API.
2. It walks a copy of each order's `Items`. For every item whose `Status` reads
   "Delivered" (compared case-insensitively), it posts one alert to an alert API
   and then increments the item's `deliveryNotification`.
3. It writes the walked items back into the order only when the whole walk
   succeeded.
4. It posts all the processed orders to an update API in a single batch, when
   there are any.
5. It returns 0.

Every routine except `Main` (Program.cs:19-39) catches its own exceptions and
writes one diagnostic record to a log instead.

The model is split into modules:

- `OrdersModel` (`model.dfy`) holds the values:
  - orders, and items as parsed from JSON, with absent keys as `None`;
  - the C# `int` count and its wrapping `+ 1`;
  - alert payloads;
  - HTTP outcomes;
  - the kinds of log records;
  - two generic ways of concatenating per-element pieces.
- `Delivery` (`delivery.dfy`) holds the delivered check and its reference definition.
- `Processing` (`processing.dfy`) describes, on values, what processing one order does:
  - the walk over the items;
  - where it throws;
  - the order that comes back;
  - the alerts it posts.
- `ProcessingLog` (`processing_log.dfy`) holds the records processing one order
  writes, and how they line up with the alerts posted.
- `Reporting` (`reporting.dfy`) covers the whole run:
  - what the fetch returns and logs;
  - the collected orders;
  - the alerts and records of all orders;
  - the records of the batch update.
- `OrdersProgram` (`program.dfy`) is the program itself. The class `Program`
  holds the state the run changes:
  - the log;
  - the alerts posted;
  - the batches posted.

  It also holds the replies the three HTTP endpoints give, as constants. Each
  routine of `Program.cs` is a method proved against the functions above:
  - `Main` becomes `Run`, filling an array of processed orders in a `for` loop;
  - `ProcessOrderAsync` becomes `ProcessOrder`, with its `foreach` loop in `WalkCopy`;
  - `IsItemDelivered`, `SendAlertMessageAsync`, `PostUpdatedOrdersAsync` and
    `FetchMedicalEquipmentOrdersAsync` each become one method.

The n-th alert POST of the run, counting from 0, ends as `alertReply(n)`. This
is why the records of an order depend on how many alerts were posted before it.

Two behaviours of the code shape the model:

- A fetch that gets a non-success status returns an empty list and writes
  nothing (Program.cs:55-68); only an exception writes a record
  (Program.cs:70-73).
- `ToObject<JArray>()` copies the items, and the copy is written back into the
  order only at Program.cs:96. An order whose processing throws therefore comes
  back exactly as it came in (Program.cs:86, 96, 99-101); no increment made
  before the exception is visible.

## Model

| member | source | states |
|---|---|---|
| OrdersModel.Increment | Program.cs:93 | `+ 1` on a C# `int` in an unchecked context: the successor below `int.MaxValue`, and `int.MinValue` at `int.MaxValue` |
| Delivery.EqualsIgnoreCaseIff | Program.cs:112 | `Delivery.EqualsIgnoreCase`, the `Equals(…, StringComparison.OrdinalIgnoreCase)` of Program.cs:112, holds exactly when both strings have the same length and agree character by character once upper-cased |
| Delivery.EqualsIgnoreCaseIsUpperEquality | Program.cs:112 | the comparison holds exactly when the upper-cased strings are equal |
| Delivery.DeliveredIff | Program.cs:109-117 | `Delivery.Delivered` (the verdict of Program.cs:112) and `Delivery.StatusLog` (the record of Program.cs:113-115) against an independent definition: an item is delivered iff it is an object with a `Status` whose upper case is "DELIVERED"; an absent `Status` or a non-object gives false and exactly one error record; a readable `Status` writes none |
| Delivery.DeliveredIgnoresCase | Program.cs:112 | re-casing the status never changes the verdict |
| Delivery.DeliveredExamples | Synapse_AlexanderHaynes_xUnit/ProgramTests.cs:89-101 | "Delivered" is delivered, as the test asserts; by the case-insensitive comparison at Program.cs:112, so are "delivered" and "DELIVERED" |
| Delivery.UndeliveredExamples | Synapse_AlexanderHaynes_xUnit/ProgramTests.cs:109-140 | "Ready_to_Deliver" is not delivered; a lower-case `status` key counts as missing, is not delivered and logs one error record |
| Processing.WalkItems | Program.cs:86-95 | the walk, a fold of `Processing.Visit` over the items, never holds more items than it was given, and holds exactly as many when it does not throw (their contents are stated by SuccessfulWalk) |
| Processing.DeliveredAlertsAppend | Program.cs:88-90 | one more item at the end adds its alert, if delivered, after all the others |
| Processing.FailedWalkIsFinal | Program.cs:86-102 | once the loop has thrown, the remaining items change nothing: no item, no alert |
| Processing.WalkFailsIff | Program.cs:86-95 | the loop throws exactly when some delivered item finds no `OrderId` or no int `deliveryNotification` |
| Processing.SuccessfulWalk | Program.cs:86-96 | with `Processing.Visited` the item as line 93 leaves it, after a walk that does not throw: as many items as before, in the same order; each delivered item has its count incremented and nothing else changed; every other item is untouched; exactly one alert per delivered item in item order, carrying the order id, the description and the count before the increment |
| Processing.FailedWalkAlerts | Program.cs:86-102 | when the first faulty item is k, the walk throws; the alerts already posted stay posted: one per delivered item before k, plus item k's own when the order has an id (the failure is then the count read after the POST) |
| Processing.WalkToFault | Program.cs:86-95 | the walk up to and including the first faulty item k throws; with an order id it has posted one alert per delivered item up to and including k, and without one it has posted none |
| Processing.FailedPrefixIsFinal | Program.cs:86-102 | once the walk over a prefix has thrown, the walk over all the items is that same walk |
| Processing.ProcessedOrderSpec | Program.cs:84-102 | with `Processing.OrderAlerts` the alerts the loop at Program.cs:86-95 posts, of `Processing.ProcessedOrder` (the order returned at Program.cs:98 or 101) and `Processing.Fails` (the catch at Program.cs:99 is taken): the returned order keeps its id; on an exception it is the order as it came in; on success it has the same number of items in the same order, each changed as an increment of a delivered item only, and one alert per delivered item |
| Processing.BumpedStaysDelivered | Program.cs:92-93 | incrementing keeps an item delivered, and it still has an int count |
| Processing.SuccessIsStable | Program.cs:84-98 | an order that processed without an exception processes without one again |
| Processing.ReprocessingIncrementsAgain | Program.cs:84-98 | processing is not idempotent: processing the returned order again increments each delivered count a second time (+2 overall, away from the int bound) |
| Processing.VisitStep | Program.cs:87-94 | `Processing.Visit`, one iteration of the loop body at Program.cs:88-94: it throws exactly at a faulty item, appends that iteration's alert either way, and appends the visited item when it does not throw |
| Processing.WalkPrefixStep | Program.cs:86-95 | the walk over a prefix one item longer is one more iteration |
| Processing.OneItemOrder | Program.cs:84-98 | a one-item order with a delivered, counted item comes back with that item incremented and posts one alert for it; with an undelivered item it comes back unchanged and posts nothing |
| Processing.ProcessingExamples | Synapse_AlexanderHaynes_xUnit/ProgramTests.cs:28-83 | a "Delivered" item with count 0 comes back with count 1; a "Ready_to_Deliver" item keeps count 0 |
| ProcessingLog.AlertRecordsAppend | Program.cs:141-150 | selecting the alert call's records (those written at Program.cs:141-150) from two concatenated stretches of log gives those of the first stretch, then those of the second |
| ProcessingLog.AlertRepliesAppend | Program.cs:139-148 | the replies to two runs of alerts are those of the first run, then those of the second, numbered after the first |
| ProcessingLog.ItemLogAlertRecords | Program.cs:88-90 | of `ProcessingLog.ItemLog` (the records of one iteration, Program.cs:88-94) and `ProcessingLog.AlertCall` (those of SendAlertMessageAsync, Program.cs:141-150): the only alert record one iteration writes is that of its own alert call, and only when the item gets an alert |
| ProcessingLog.WalkLogAfterThrow | Program.cs:86-102 | once the walk has thrown, items after it write nothing |
| ProcessingLog.WalkLogAfterFault | Program.cs:86-102 | once some item is faulty, items after it write nothing |
| ProcessingLog.WalkLogHasNoProcessFailed | Program.cs:99-100 | the walk alone never writes the processing error record |
| ProcessingLog.OrderLogFailure | Program.cs:84-102 | `ProcessingLog.OrderLog`, the records processing one order writes, holds the error record of Program.cs:100 exactly when processing throws, and then exactly once, as its last record |
| ProcessingLog.WalkLogAlertRecords | Program.cs:86-95 | `ProcessingLog.WalkLog`, the records of the loop at Program.cs:86-95, against `ProcessingLog.AlertLog`, the record of Program.cs:141-150 for each reply: the walk's alert records are exactly one per alert posted, in posting order, each reporting the reply to that POST |
| ProcessingLog.WalkLogAlertRecordsLast | Program.cs:86-95 | one more item keeps the walk's alert records matching its alerts, one per alert in posting order |
| ProcessingLog.VisitAlertRecords | Program.cs:88-90 | an iteration that does not start after a throw writes the record of its own alert, answered by the reply numbered after the walk's alerts, and no other alert record |
| ProcessingLog.OrderLogAlertRecords | Program.cs:84-102 | the same for processing a whole order, including one that throws |
| ProcessingLog.WalkLogStep | Program.cs:86-95 | the records of the walk over a prefix one item longer, while the walk has not thrown |
| ProcessingLog.WalkLoopStep | Program.cs:86-95 | one pass of the loop after the walk so far: it throws exactly at a faulty item, appends its alert, appends the visited item when it does not throw, and appends its records with its alert numbered after those posted so far |
| ProcessingLog.WalkThrownAt | Program.cs:86-102 | when the walk throws at item i, the walk over all the items and its records are those of the prefix up to i |
| ProcessingLog.CompletedWalk | Program.cs:84-98 | when the walk does not throw, processing writes only the walk's records |
| Reporting.FetchLog | Program.cs:44-75 | the fetch writes at most one record: the error record exactly on an exception (Program.cs:72), the zero-orders notice exactly when the body parsed to an empty list (Program.cs:61-62), and nothing on a non-success status, on a body parsed to a non-empty list, or on a null parse result |
| Reporting.Fetched | Program.cs:44-75 | a body parsed to a list on a success status is returned as that list (Program.cs:65); an exception, a non-success status or a null parse result gives an empty list; nothing but the parsed body is ever returned |
| Reporting.UpdateLogOnePerOrder | Program.cs:158-187 | `Reporting.UpdateLog` and `Reporting.UpdateRecords`, the records of Program.cs:172-186: the batch update writes exactly one record per order, in batch order, naming that order's id: all "sent" on success, all "failed" on another status; an exception writes a single error record |
| Reporting.ProcessingIsPerOrder | Program.cs:26-29 | `Reporting.ProcessAll`, the array the loop at Program.cs:26-29 fills: the i-th collected order is the i-th fetched order processed, whatever the other orders hold |
| Reporting.ProcessAllStep | Program.cs:26-29 | one more iteration of the run appends that order, processed |
| Reporting.AllAlertsStep | Program.cs:26-29 | one more order appends its alerts after those of the orders before it |
| Reporting.RunLogStep | Program.cs:26-29 | one more order appends its records, its alerts answered after those of the orders before it |
| Reporting.RunLogAlertRecords | Program.cs:19-39 | of `Reporting.AllAlerts` and `Reporting.RunLog`, the alerts and records of the loop at Program.cs:26-29: across the whole run, the alert records are exactly one per alert posted, in posting order, each reporting the reply to that POST |
| OrdersProgram.Program.Run | Program.cs:19-39 | returns 0. It posts exactly one batch, holding every fetched order processed and in order, when some order was fetched, and none otherwise. It posts the alerts of all orders in order. It logs start, the fetch's records, every order's records, the update's records (when there was an update), then end |
| OrdersProgram.Program.FetchMedicalEquipmentOrders | Program.cs:44-75 | returns the orders as Fetched says, never throws, and logs one error record on an exception and one notice for an empty list |
| OrdersProgram.Program.ProcessOrder | Program.cs:82-103 | returns the order as ProcessedOrder says, posts that order's alerts, and writes its records, ending with the error record when it throws |
| OrdersProgram.Program.WalkCopy | Program.cs:85-95 | the loop over the copied items ends in the state the walk describes: it throws exactly when the walk fails, leaves the walked items otherwise, posts the walk's alerts and writes its records |
| OrdersProgram.Program.VisitItem | Program.cs:88-94 | one iteration throws exactly at a faulty item, returns the visited item otherwise, posts that iteration's alert and writes its records |
| OrdersProgram.Program.IsItemDelivered | Program.cs:109-117 | returns the delivered verdict and never throws; writes one error record exactly when `Status` cannot be read |
| OrdersProgram.Program.SendAlertMessage | Program.cs:124-152 | with `Processing.AlertsPosted` the POST of Program.cs:133-139: posts exactly one alert (order id, description, count) for an object item and logs how that POST ended; a non-object item posts nothing and logs one error record |
| OrdersProgram.Program.PostUpdatedOrders | Program.cs:158-187 | posts the whole batch once, then logs one record per order in batch order according to the single reply, or one error record on an exception |

## Left out

- HTTP transport, `HttpClient` and the mock handler set-up (Program.cs:13-14, 48-54, 128-132, 164-170). Each endpoint's outcome is a constant of the `Program` object: `fetchReply`, `alertReply` (indexed by the number of the alert POST) and `updateReply`.
- JSON parsing and serialisation. Orders and items are datatypes. An absent key is `None`. `ToObject<JArray>()` is modelled as taking a copy of the item sequence.
- How `deliveryNotification` converts to `int` (`Value<int>()`). The count is `Some(n)` when the value reads as an int, and `None` when reading it throws.
- The aliasing of the `JObject` passed to `ProcessOrderAsync`. The model returns the order as a value. The original array of fetched orders, which the source also changes through the alias, is never read again.
- OrdersProgram.Program.SendAlertMessage: the alert's message text (Program.cs:135-136) is modelled as its three fields (order id, description, count), not as the formatted string. The count field holds the count as `Value<int>()` reads it, while the message interpolates the raw JSON token, so a non-integral token such as `2.5` is rendered as written but read as 2.
- Log text, timestamps and file output (`LoggerClass.cs` is not part of this model). Records are kinds carrying the order id or description they name.
- `async`/`await`. Every call is awaited in turn, so calls are sequential method calls.
- Delivery.EqualsIgnoreCase: case folding covers ASCII letters only, not the full Unicode ordinal case-insensitive comparison.
- OrdersProgram.Program.PostUpdatedOrders: a JSON `null` element of the fetched array is not modelled; an `Order` is never null. `ToObject<JObject[]>()` (Program.cs:58) turns such an element into a null order. For example, the body `[{"OrderId":1,"Items":[]}, null]` with a successful update POST behaves as follows in the source. `ProcessOrderAsync` throws on the null order at line 86, catches the exception and returns it. In `PostUpdatedOrdersAsync`, `order["OrderId"]` throws on it at line 175, so the log holds the "sent" record for order 1 followed by the error record of line 185. It does not hold one record per order, as UpdateLogOnePerOrder states for orders that are never null.
- `Main`'s `args` parameter, which the program never reads.
