# Mount-table refresher and order delivery, modelled in Dafny

This project models two pieces of a Java concurrency course repository and
proves properties of them.

**The mount-table refresh coordinator** (`m7_other/refactoring`). A
`MountTableRefresherService` reads the router records from its store. It drops
every record whose admin address is null or empty. It builds one
`MountTableRefresherThread` per remaining address. An address containing
"local" gets a manager for "local"; any other address gets a manager for
itself. The service starts the refreshers and waits for a latch with a
bounded wait. It logs the wait's result and counts successes and failures.
It invalidates the client-cache entry of every refresher that did not report
success, and it logs a summary line. The client cache (`Others.LoadingCache`)
is a plain map. `serviceInit` fills it with one new client per record address.
`serviceStop` empties it.

The threads are modelled sequentially. For each refresher the model takes as
input whether it ran before the wait ended and, if it did, whether its
manager answered true or false or threw (`RefresherService.Completion`). A
second input says whether the waiting thread was interrupted. The wait
reports "all done" exactly when every refresher ran, because each run counts
the latch down once. Log output is recorded as a sequence of lines
(`logLines`) instead of being printed.

**The order delivery state machine** (`m3_shared/immutable`). An `Order` holds
items, payment information, a packed flag and a status. Its setters move it to
IN_PROGRESS. `OrderService` keeps a map from id to order and a counter for the
next id. Packing an order or paying for it also delivers the order whenever
`checkStatus` holds afterwards. Besides the classes, the model has a pure
function of one order's fields per service call (`OrderServices.AfterEvent`).
The lemmas about whole sequences of calls are stated over that function.

Java `null` values are `None` (`JavaStrings.Option`); nullable object references (the refresher's latch, the service's client cache) use Dafny's `?` types. Where an operation
would throw `NullPointerException` on a null it does not check, the model
either returns an error flag (`ServiceInit`) or requires the value to be
present (each such `requires` is listed under "Left out").

The code's cache has no per-entry age and no create-on-miss, and its
`cleanUp` clears everything. `serviceInit` pre-warms
the cache for every record address, the local one included. A failed local
refresher's address is invalidated like any other.

Files: `java_strings.dfy` (Java's `null`, `int`/`boolean` to text, and
`String.contains`), `others.dfy`, `refresher_thread.dfy`,
`refresher_service.dfy`, `orders.dfy`, `order_service.dfy`.

## Model

| member | source | states |
|---|---|---|
| `JavaStrings.Contains` | src/main/java/course/concurrency/m7_other/refactoring/MountTableRefresherService.java:123-125 | `contains` holds exactly when the substring occurs at some index of the string |
| `Others.LoadingCache.constructor` | src/main/java/course/concurrency/m7_other/refactoring/Others.java:12-13 | a new cache holds no entries |
| `Others.LoadingCache.Add` | src/main/java/course/concurrency/m7_other/refactoring/Others.java:15-17 | the key maps to the new value, replacing any old one; every other key is unchanged |
| `Others.LoadingCache.Invalidate` | src/main/java/course/concurrency/m7_other/refactoring/Others.java:19-21 | removes exactly that key; an absent key leaves the map as it was |
| `Others.LoadingCache.CleanUp` | src/main/java/course/concurrency/m7_other/refactoring/Others.java:23 | the map is empty afterwards |
| `Others.RouterStateCounter.constructor` | src/main/java/course/concurrency/m7_other/refactoring/Others.java:32 | the shared counter starts at 0, so the first router state gets suffix 1 |
| `Others.RouterStateCounter.NewRouterState` | src/main/java/course/concurrency/m7_other/refactoring/Others.java:32-37 | the shared 32-bit counter is incremented (wrapping past 2^31-1), and the admin address is the given prefix (the text "null" for a null prefix, as Java's string concatenation gives) followed by the new counter value |
| `Others.SuffixesCount` | src/main/java/course/concurrency/m7_other/refactoring/Others.java:32-37 | until the counter wraps, k constructions hand out the suffixes c+1, c+2, ..., c+k |
| `Others.FirstSuffixes` | src/main/java/course/concurrency/m7_other/refactoring/Others.java:32-37 | from the initial counter the suffixes are 1, 2, ..., k, strictly increasing |
| `Others.DistinctSuffixesDistinctAddresses` | src/main/java/course/concurrency/m7_other/refactoring/Others.java:35-37 | two records built from the same prefix with different counter values have different admin addresses |
| `Others.RouterStore.constructor` | src/main/java/course/concurrency/m7_other/refactoring/Others.java:44-45 | a new store holds a fresh, empty record list of its own |
| `Others.MountTableManager.GetAddress` | src/main/java/course/concurrency/m7_other/refactoring/Others.java:52-61 | answers the address the manager was built with |
| `Others.RouterStore.GetCachedRecords` | src/main/java/course/concurrency/m7_other/refactoring/Others.java:44-49 | returns the store's own list object (the same reference), so changes through it are changes to the store |
| `RefresherThread.MountTableRefresherThread.constructor` | src/main/java/course/concurrency/m7_other/refactoring/MountTableRefresherThread.java:9-21 | keeps the manager and the admin address, starts with success false and no latch, names the thread "MountTableRefresh_" + address, marks it daemon |
| `RefresherThread.MountTableRefresherThread.Run` | src/main/java/course/concurrency/m7_other/refactoring/MountTableRefresherThread.java:35-42 | success becomes the manager's answer (and keeps its value if the manager throws); the latch is counted down exactly once in both cases |
| `RefresherThread.MountTableRefresherThread.SetCountDownLatch` | src/main/java/course/concurrency/m7_other/refactoring/MountTableRefresherThread.java:51-53 | the refresher holds the given latch; nothing else changes |
| `RefresherThread.MountTableRefresherThread.ToString` | src/main/java/course/concurrency/m7_other/refactoring/MountTableRefresherThread.java:55-59 | the text reads back as exactly the refresher's current success flag and admin address |
| `RefresherThread.MountTableRefresherThread.IsSuccess` | src/main/java/course/concurrency/m7_other/refactoring/MountTableRefresherThread.java:44-49 | answers the current `success` flag: false until a refresh returned true |
| `RefresherThread.MountTableRefresherThread.GetAdminAddress` | src/main/java/course/concurrency/m7_other/refactoring/MountTableRefresherThread.java:61-63 | answers the address the refresher was built with |
| `RefresherThread.ThreadNameRoundTrip` | src/main/java/course/concurrency/m7_other/refactoring/MountTableRefresherThread.java:19 | the thread name is "MountTableRefresh_" followed by the admin address, which can be read back from it |
| `RefresherThread.DescribeRoundTrip` | src/main/java/course/concurrency/m7_other/refactoring/MountTableRefresherThread.java:55-59 | the `toString` text determines both the success flag and the admin address |
| `RefresherService.IsLocalAdmin` | src/main/java/course/concurrency/m7_other/refactoring/MountTableRefresherService.java:123-125 | an address is local exactly when "local" occurs in it at some position |
| `RefresherService.DispatchedAppend` | src/main/java/course/concurrency/m7_other/refactoring/MountTableRefresherService.java:70-86 | each record contributes its refreshers independently and in record order |
| `RefresherService.DispatchedSingle` | src/main/java/course/concurrency/m7_other/refactoring/MountTableRefresherService.java:71-86 | one record yields exactly one refresher if its admin address is neither null nor empty, and none otherwise |
| `RefresherService.DispatchedMembers` | src/main/java/course/concurrency/m7_other/refactoring/MountTableRefresherService.java:68-86 | an address gets a refresher exactly when it is the non-empty admin address of some record |
| `RefresherService.AllAddressedAllDispatched` | src/main/java/course/concurrency/m7_other/refactoring/MountTableRefresherService.java:68-86 | when every record has a non-empty address, as every constructed `RouterState` does, every record gets a refresher, in order |
| `RefresherService.LocalManagerIff` | src/main/java/course/concurrency/m7_other/refactoring/MountTableRefresherService.java:76-94 | a refresher's manager address is "local" exactly when its admin address is local; a remote refresher's manager gets the admin address itself |
| `RefresherService.CycleOutcomes` | src/main/java/course/concurrency/m7_other/refactoring/MountTableRefresherThread.java:9-49 | a refresher reports success exactly when it ran before the wait ended and its manager returned true; an unfinished one reports failure |
| `RefresherService.CountsConserve` | src/main/java/course/concurrency/m7_other/refactoring/MountTableRefresherService.java:127-141 | successCount + failureCount equals the number of refreshers |
| `RefresherService.FailedAddressesExactly` | src/main/java/course/concurrency/m7_other/refactoring/MountTableRefresherService.java:130-137 | an address is invalidated exactly when some refresher for it failed |
| `RefresherService.CacheAfterCycle` | src/main/java/course/concurrency/m7_other/refactoring/MountTableRefresherService.java:96-98 | after a cycle a key is present exactly when it was present and no refresher for it failed (local ones included); kept keys keep their clients |
| `RefresherService.AllCompletedIff` | src/main/java/course/concurrency/m7_other/refactoring/MountTableRefresherService.java:101-116 | the latch reaches zero exactly when every refresher ran |
| `RefresherService.CycleLog` | src/main/java/course/concurrency/m7_other/refactoring/MountTableRefresherService.java:87-141 | no refresher: nothing is logged; otherwise the last line is the summary; "Not all router admins updated their cache" appears exactly when some refresher had not run and the wait was not interrupted; the interruption line appears exactly when interrupted |
| `RefresherService.SummaryRoundTrip` | src/main/java/course/concurrency/m7_other/refactoring/MountTableRefresherService.java:139-141 | both counts can be read back from the summary line |
| `RefresherService.MountTableRefresherService.constructor` | src/main/java/course/concurrency/m7_other/refactoring/MountTableRefresherService.java:10-23 | a new service has an empty router store, no cache and no cleaner |
| `RefresherService.MountTableRefresherService.ServiceInit` | src/main/java/course/concurrency/m7_other/refactoring/MountTableRefresherService.java:25-33 | timeout 10; a fresh cache holding a fresh client per record address, no two addresses sharing a client; cleaner scheduled with a fixed delay of 15 ms; a null address stops it with the earlier addresses added, and then no new cleaner is scheduled (the cleaner field keeps its earlier value) |
| `RefresherService.MountTableRefresherService.ServiceStop` | src/main/java/course/concurrency/m7_other/refactoring/MountTableRefresherService.java:35-39 | the cleaner is shut down and the cache is empty |
| `RefresherService.MountTableRefresherService.GetLocalRefresher` | src/main/java/course/concurrency/m7_other/refactoring/MountTableRefresherService.java:92-94 | a new refresher whose manager is "local" and which keeps the original admin address |
| `RefresherService.MountTableRefresherService.NewRefresher` | src/main/java/course/concurrency/m7_other/refactoring/MountTableRefresherService.java:76-85 | a new refresher for the address, with the "local" manager for a local address and a manager for the address itself otherwise, not yet run and without a latch |
| `RefresherService.StartRefreshers` | src/main/java/course/concurrency/m7_other/refactoring/MountTableRefresherService.java:101-106 | one new latch set to the number of refreshers; every refresher that completes takes its manager's answer and the others keep their flag; the latch ends at the number that did not complete; every refresher holds that latch, and managers and names stay |
| `RefresherService.StartOne` | src/main/java/course/concurrency/m7_other/refactoring/MountTableRefresherService.java:103-106 | the refresher holds the latch; if it completes, its flag moves on by its manager's answer and the latch goes down by one |
| `RefresherService.MountTableRefresherService.CollectRefreshers` | src/main/java/course/concurrency/m7_other/refactoring/MountTableRefresherService.java:68-86 | one new, distinct refresher per dispatched address in record order, each with the manager its classification calls for, not yet successful |
| `RefresherService.MountTableRefresherService.RemoveFromCache` | src/main/java/course/concurrency/m7_other/refactoring/MountTableRefresherService.java:96-98 | the address is no longer a key of the cache; nothing else changes |
| `RefresherService.MountTableRefresherService.InvokeRefresh` | src/main/java/course/concurrency/m7_other/refactoring/MountTableRefresherService.java:100-121 | all refreshers hold one fresh latch, which ends at the number that did not complete; every refresher that ran takes its manager's answer, managers and names stay; the wait's line is logged as `WaitLog` says; the summary and the invalidations of `LogResult` follow |
| `RefresherService.MountTableRefresherService.AwaitAndLog` | src/main/java/course/concurrency/m7_other/refactoring/MountTableRefresherService.java:107-119 | an interrupted wait logs the interruption line; otherwise "Not all router admins updated their cache" is logged exactly when some refresher did not complete; nothing else is logged |
| `RefresherService.MountTableRefresherService.LogResult` | src/main/java/course/concurrency/m7_other/refactoring/MountTableRefresherService.java:127-142 | the cache loses exactly the failed refreshers' addresses; one summary line with the success and failure counts is logged |
| `RefresherService.MountTableRefresherService.Refresh` | src/main/java/course/concurrency/m7_other/refactoring/MountTableRefresherService.java:66-90 | the cache loses exactly the addresses of the refreshers that failed this cycle, and the log gains exactly the cycle's lines; it never throws |
| `RefresherService.MountTableRefresherService.Log` | src/main/java/course/concurrency/m7_other/refactoring/MountTableRefresherService.java:144-146 | appends the message to the log |
| `RefresherService.MountTableRefresherService.SetCacheUpdateTimeout` | src/main/java/course/concurrency/m7_other/refactoring/MountTableRefresherService.java:148-150 | sets only the timeout |
| `RefresherService.MountTableRefresherService.SetRouterClientsCache` | src/main/java/course/concurrency/m7_other/refactoring/MountTableRefresherService.java:151-153 | sets only the cache reference |
| `RefresherService.MountTableRefresherService.SetRouterStore` | src/main/java/course/concurrency/m7_other/refactoring/MountTableRefresherService.java:155-157 | sets only the store reference |
| `Orders.Order.constructor` | src/main/java/course/concurrency/m3_shared/immutable/Order.java:17-20 | a new order has its items, no id, no payment, is not packed, status NEW |
| `Orders.Order.CheckStatus` | src/main/java/course/concurrency/m3_shared/immutable/Order.java:22-27 | true exactly when the order has a non-null, non-empty item list, a payment, and is packed |
| `Orders.Order.GetId` | src/main/java/course/concurrency/m3_shared/immutable/Order.java:29-31 | answers the order's current id, null until one is set |
| `Orders.Order.SetId` | src/main/java/course/concurrency/m3_shared/immutable/Order.java:29-35 | only the id changes, and `getId` then answers it |
| `Orders.Order.SetPaymentInfo` | src/main/java/course/concurrency/m3_shared/immutable/Order.java:45-48 | stores the payment and sets IN_PROGRESS; items, packed flag and id are untouched |
| `Orders.Order.SetPacked` | src/main/java/course/concurrency/m3_shared/immutable/Order.java:54-57 | stores the flag and sets IN_PROGRESS; items, payment and id are untouched |
| `Orders.Order.SetStatus` | src/main/java/course/concurrency/m3_shared/immutable/Order.java:63-65 | only the status changes |
| `OrderServices.EventsEffect` | src/main/java/course/concurrency/m3_shared/immutable/OrderService.java:24-36 | after any calls, id and items are unchanged, the order is packed iff some call packed it, it holds the last payment, and after at least one call it is DELIVERED exactly when `checkStatus` holds, IN_PROGRESS otherwise |
| `OrderServices.DeliveredIff` | src/main/java/course/concurrency/m3_shared/immutable/Order.java:22-27 | a new order is delivered exactly when it has items, was packed at least once and the last payment call carried a payment, in either order and with any repetition |
| `OrderServices.EmptyOrderNeverDelivered` | src/main/java/course/concurrency/m3_shared/immutable/Order.java:23 | an order with an empty item list is never delivered |
| `OrderServices.DeliveredStaysDelivered` | src/main/java/course/concurrency/m3_shared/immutable/OrderService.java:24-36 | a delivered order stays delivered on further packing or on a further payment; a null payment moves it back to IN_PROGRESS |
| `OrderServices.TestScenarios` | src/test/java/course/concurrency/m3_shared/immutable/OrderServiceTests.java:18-66 | pack then pay, and pack three times then pay, deliver; only paying, packing once or packing twice do not |
| `OrderServices.OrderService.constructor` | src/main/java/course/concurrency/m3_shared/immutable/OrderService.java:9-10 | no orders, next id 0 |
| `OrderServices.OrderService.NextId` | src/main/java/course/concurrency/m3_shared/immutable/OrderService.java:12-14 | answers the counter and increments it |
| `OrderServices.OrderService.CreateOrder` | src/main/java/course/concurrency/m3_shared/immutable/OrderService.java:16-22 | returns consecutive ids 0, 1, 2, ...; registers a NEW order under that id whose own id matches; earlier orders are untouched |
| `OrderServices.OrderService.UpdatePaymentInfo` | src/main/java/course/concurrency/m3_shared/immutable/OrderService.java:24-29 | the order takes the payment, and is delivered if `checkStatus` holds; other orders and the counter are unchanged |
| `OrderServices.OrderService.SetPacked` | src/main/java/course/concurrency/m3_shared/immutable/OrderService.java:31-36 | the order is packed, and is delivered if `checkStatus` holds; other orders and the counter are unchanged |
| `OrderServices.OrderService.Deliver` | src/main/java/course/concurrency/m3_shared/immutable/OrderService.java:38-41 | the order registered under the given order's id becomes DELIVERED, nothing else changes |
| `OrderServices.OrderService.IsDelivered` | src/main/java/course/concurrency/m3_shared/immutable/OrderService.java:43-45 | true exactly when the order's status is DELIVERED |

## Left out

- Threads, `Thread.start`, daemon threads and the timed `CountDownLatch.await` are not modelled as such. Each refresher's completion and its manager's answer are inputs. The wait's result is taken to be whether the latch is at zero once the refreshers that finished have run.
- A refresher that finishes after the wait times out but before `logResult` reads its flag is not modelled. The model takes `logResult` to see the same completions as the wait. Java's memory visibility of the non-volatile `success` field is not modelled either.
- The cache-cleaner executor (`MountTableRefresherService.java:41-61`) is recorded only as "scheduled with a fixed delay of 15 ms" or "shut down". Its thread factory returns `new Thread()` without the runnable it is given, so the scheduled `cleanUp` would never run in the code as written. The model has no cleaner tick.
- `MountTableManager.refresh` returns a random boolean. The model takes the answer as an input (`RefreshAttempt`).
- `log` prints to `System.out`. The model appends the line to `logLines`.
- RefresherService.MountTableRefresherService.Refresh: requires the client cache to be set. If `refresh` ran before `serviceInit`, the first failed refresher would make `removeFromCache` dereference null.
- RefresherService.MountTableRefresherService.InvokeRefresh: requires the client cache to be set, for the same reason as `Refresh`.
- RefresherService.MountTableRefresherService.LogResult: requires the client cache to be set, for the same reason as `Refresh`.
- RefresherService.MountTableRefresherService.ServiceStop: requires `serviceInit` to have set both the cache and the cleaner; otherwise the Java code dereferences null.
- RefresherService.MountTableRefresherService.SetRouterStore: takes a non-null store; a null store would make the next `refresh` or `serviceInit` dereference null.
- `Others.LoadingCache` is generic in its key type in Java. Its `invalidate` takes a `String`, and the service keys it by admin address, so the model fixes the key type to `string`.
- RefresherThread.MountTableRefresherThread.Run: requires the latch to be set. Java's `run` would dereference a null latch in its `finally` block; the only caller sets it first.
- RefresherService.MountTableRefresherService.RemoveFromCache: requires the client cache to be set, for the same reason as `Refresh`.
- Orders.Order: the item list is taken as a value when the order is built. Java keeps the caller's `List` reference and `checkStatus` reads it on every call, so a caller that later empties or fills that list changes whether the order can be delivered; that aliasing is not modelled.
- OrderServices.OrderService.UpdatePaymentInfo: requires the id to be registered, because a missing id makes the Java code dereference null.
- OrderServices.OrderService.SetPacked: requires the id to be registered, for the same reason.
- OrderServices.OrderService.IsDelivered: requires the id to be registered, for the same reason.
- OrderServices.OrderService.Deliver: requires the order's id to be set and registered. `deliver` is private and only ever called with a registered order.
- OrderServices.OrderService.NextId: does not model the wrap-around of the `long` counter after 2^63 orders.
- RefresherService.CountsConserve: the counts are unbounded here. Java's `int` counts would only overflow with more than 2^31 refreshers.
- `synchronized` on `OrderService` and `Order` is dropped, because the model is sequential.
- `Item` and `PaymentInfo` are not part of this model. Each is an opaque token here.
- The getters `getItems`, `getPaymentInfo`, `isPacked` and `getStatus` of `Order` are plain field reads; the model reads the fields directly and has no member for them.
