# Cinema orders: a verified model of booking

Cinema Orders sells seats over two stores. A reservation cache holds seats for a few
minutes: one flat key space with expiring reservation records, an expiring key for each
held place, and an index set for each screening that never expires, goes stale, and is
cleaned when it is read. A ticket collection holds what was sold: documents whose status
is changed by bulk updates that fire only from an allowed previous status. A service
checks both stores, reserves, turns reservations into orders, and lets payment,
cancellation, refund and a delayed delete of the reservation run as goroutines.

The project models both stores, the service and the goroutines, and proves what they
keep over every run.

| file | what it holds |
|---|---|
| `strings.dfy`, `placekey.dfy` | decimal printing and parsing, split and join; the names of the key space |
| `sliceutils.dfy` | `pkg/sliceutils` |
| `cachespec.dfy` | the cache as a value: operations, invariant, and the simple view they refine |
| `typednames.dfy`, `reservecache.dfy` | the cache as a class over text keys, proved to be those operations |
| `tickets.dfy`, `ordersrepository.dfy` | the status machine, bulk updates and aggregates; the repository class |
| `race.dfy`, `paymentservice.dfy` | paying against canceling, and the refunds they start; the retry loops |
| `booking.dfy`, `runs.dfy` | the whole system as a state machine; theorems over all runs |
| `counterexamples.dfy` | seven runs that sell one seat twice |
| `quiet.dfy` | what the events of one method add up to when nobody comes between them |
| `service.dfy`, `refund.dfy`, `handler.dfy`, `listing.dfy` | the service's methods, the refund table, requests, order lists |

## Main results

* **No seat is sold twice, exactly when.** A run is any sequence of events, and each event is
  one call of a store: the look-up of the tickets; the commands of a reading of the cache (the
  index, the values, the removal of stale names); the write of a reservation; the read and
  the insert of `ProcessOrder`; the commands of a delete (the read, the removal from the
  index, the drop of the keys); status changes of any kind; besides these, the clock and
  eviction. Over every run, a seat is never sold twice if and only if every order is inserted
  while its places are unoccupied (`Runs.SellsOnceExactly`). When no order is inserted late
  and no reservation is written outdated, that is the case if and only if no order is
  inserted from a reservation whose earlier order still holds a seat
  (`Runs.NoDoubleBooking`); processing each reservation at most once is then enough
  (`Runs.ProcessedOnceIsSafe`).
* **The code ensures none of these conditions.** Seven concrete runs sell one seat twice
  (`counterexamples.dfy`): a reservation processed again before its delayed delete; an order
  inserted after its reservation lapsed while the price was asked for; two requests looked up
  before either is written; a request let through because a store failed to answer; a
  request that looked up the tickets before another's order was inserted and the cache after
  that order's reservation was deleted, and so saw the seat in neither store; a cleanup that
  takes a name off the index after it was reserved again; and a delete that drops the keys of
  a reservation made after it had read its own.
* **The cache invariant lasts, exactly when.** It does if and only if each reservation is
  written while none of its places is reserved, no cleanup removes a name reserved again
  since, and no delete drops another live reservation's keys (`Runs.CacheLastsExactly`). What
  a request saw lasts exactly until a rival buys or reserves one of its places
  (`Runs.FreeLastsExactly`), so with every look-up answered, no rival or delete in between,
  and no late cleanup or delete, no write is outdated (`Runs.UnrivalledIsCurrent`).
* **The two stores agree, exactly when.** Tickets and reservations agree about every seat if and
  only if each reservation is written with its places free and each order inserted while
  nobody else has its places reserved, whatever happens to the index and to keys
  (`Runs.ConsistentExactly`).
* **The stale index is invisible to a reading that nobody interrupts.** It returns each place of
  the screening's live reservations once, whatever expired names the index still holds. And
  whatever interrupts what, a reservation can be read exactly until its deadline passes or a
  delete of it goes through (`Runs.ReservationLasts`).
* **Whole-order races have one winner.** In every interleaving of the payment goroutine, the
  notification path and the refunds they start, an order's tickets share one status, decided by
  whichever of paying and canceling took effect first; a refund that reported both of its
  changes has refunded the order for good.
* **Refunding items can stop half way.** A reply lost on the way to REFUND_AWAITING leaves the
  items there with their seats; `PaymentService.PaymentServiceStub.OrderItemsRefundRequest`
  says exactly when they end REFUNDED.

## How the model reads the code

* One call of one store is one atomic step: a command, a pipeline, a query or a transaction.
  `ReservePlaces` is one pipeline
  (`internal/repository/rediscache/reserveCache.go:74-107`). A reading of a screening is
  SMEMBERS, MGET and SREM (`internal/repository/rediscache/reserveCache.go:161-226`). A delete
  is GET, then SREM, then DEL: the SREM is sent at once, before the pipeline that holds the
  DEL (`internal/repository/rediscache/reserveCache.go:131-157`). A method of a class here
  runs by itself; its effect is stated as a run of the events it consists of, and
  `booking.dfy` and `runs.dfy` interleave them.
* A store that fails to answer a look-up ends the wait without an error, because the branch
  for it tests `err`, which is nil there, and not the reply's own error
  (`internal/service/service.go:127-132`, `internal/service/service.go:186-192`). What came
  in by then is taken for everything, or for no counts at all. The model does the same. The
  test in `internal/repository/rediscache/reserveCache.go:234-238` has the same slip, so a
  batch of readings never fails: a reading that does leaves an empty entry, and only the
  screening's tickets are counted.
* Filters are ordinary filters and a transaction commits when it reports success, although
  the code passes `ctx` rather than the session and wraps `$in` in `bson.E`
  (`internal/repository/mongorepository/cinemaOrdersRepository.go:168-186`,
  `internal/repository/mongorepository/cinemaOrdersRepository.go:205-226`). The statuses of
  an order are its set of distinct statuses, although `GetOrderItemsStatuses` decodes a list
  into a struct.
* SADD and SREM of no members are errors, as in Redis. So reserving no places leaves an
  orphan record and fails, and deleting such a record fails and changes nothing.
* The refund percent is computed from the time since the screening started, not the days
  remaining that the error message speaks of; the model follows the code.
* UUIDs are fresh parameters with the shape of section 3 of RFC 4122. The clock, other
  services' replies and which reply arrives first are parameters too.

## Model

| member | source | states |
|---|---|---|
| Runs.NoDoubleBooking | internal/service/service.go:83-330 | over every run without late inserts and outdated writes, no seat is ever sold twice if and only if no order is inserted from a reservation whose earlier order still holds a seat |
| Runs.SellsOnceExactly | internal/service/service.go:272-330 | over every run at all, no seat is ever sold twice if and only if each order is inserted while its places are unoccupied |
| Runs.ProcessedOnceIsSafe | internal/service/service.go:83-330 | from an empty system, processing each reservation at most once, in time and with no outdated write never sells a seat twice |
| Runs.SeatIsOneCustomers | internal/service/service.go:83-330 | in every state of such a run a seat has at most one occupying ticket and one live reservation, and if both, the ticket's order came from that reservation |
| Runs.CacheLastsExactly | internal/repository/rediscache/reserveCache.go:70-226 | over every run, the cache invariant lasts if and only if no write overlaps a live reservation, no cleanup removes a name reserved again since it was found stale, and no delete drops keys of another live reservation |
| Runs.ConsistentExactly | internal/service/service.go:83-330 | over every run, cache and tickets stay consistent if and only if each reservation is written with its places free and each order inserted with its places reserved by nobody else |
| Runs.FreeLastsExactly | internal/service/service.go:212-257 | over every run, places found unsold stay so if and only if no rival buys one, and places found unreserved if and only if no rival reserves one |
| Runs.WriteWasChecked | internal/service/service.go:83-139 | every written reservation was looked up in both stores by its own request and found free in each, unless a store had failed to answer that request before |
| Runs.UnrivalledIsCurrent | internal/service/service.go:212-257 | if every look-up is answered, no rival or delete of its places comes between a look-up and the write, and no cleanup or delete is late, then no write is outdated and the cache invariant lasts |
| Runs.CheckOutcome | internal/service/service.go:83-225 | while the cache invariant holds, a request looked up in either order with nobody in between is let through if and only if its places are free, and no store changes |
| Booking.StepConsistentExactly | internal/service/service.go:83-330 | each single step keeps cache, tickets and their link consistent if and only if it is not a write of unfree places or an insert into places reserved by another |
| Booking.StepKeepsCacheExactly | internal/repository/rediscache/reserveCache.go:70-226 | each single step keeps the cache invariant if and only if it is not an overlapping write, a late removal or a late drop |
| Booking.ClashIsRepeat | internal/service/service.go:279-310 | in a consistent state an order inserted in time meets an occupied place if and only if this reservation's earlier order still holds a seat |
| Booking.SoldOnceMeans | internal/repository/mongorepository/cinemaOrdersRepository.go:45-81 | no seat is sold twice if and only if of any two tickets for one place of one screening one is CANCELED or REFUNDED |
| Booking.OrderStatusChanged | internal/repository/mongorepository/cinemaOrdersRepository.go:83-106 | in the whole system, a change of an order moves exactly its tickets whose status the new one may follow, and nothing else |
| Booking.ItemsStatusChanged | internal/repository/mongorepository/cinemaOrdersRepository.go:189-230 | in the whole system, a change of items moves all of them or none: all if and only if they are distinct and each is the id of such a ticket |
| Booking.OrderInserted | internal/service/service.go:279-310 | reading a live reservation and inserting adds one ticket a place, with every field given, and changes nothing else |
| Booking.InsertExact | internal/service/service.go:302-310 | an insert sells a seat twice exactly when one of its places is occupied |
| Counterexamples.RepeatSellsTwice | internal/service/service.go:317-325 | a run that reads and processes one reservation twice before its delayed delete, with nothing late or outdated, sells its seat twice |
| Counterexamples.StaleInsertSellsTwice | internal/service/service.go:279-307 | a run in which each reservation is processed once and written up to date, but one processed after it lapsed, sells a seat twice |
| Counterexamples.OverlappingRequestsSellTwice | internal/service/service.go:212-252 | a run in which two requests are looked up before either is written, each processed once and in time, sells a seat twice |
| Counterexamples.UnansweredLookUpSellsTwice | internal/service/service.go:127-132 | a run in which the tickets do not answer one look-up, each reservation processed once and in time, sells a seat twice |
| Counterexamples.StraddledLookUpSellsTwice | internal/service/service.go:83-139 | a run in which one request's two look-ups straddle another's insert and delete, so that it sees the seat in neither store, sells it twice |
| Counterexamples.LateRemovalSellsTwice | internal/repository/rediscache/reserveCache.go:169-195 | a run in which a cleanup removes a name that was reserved again since it was found stale, each reservation processed once and in time and no requests overlapping, sells a seat twice |
| Counterexamples.LateDeleteSellsTwice | internal/repository/rediscache/reserveCache.go:128-159 | a run in which a delete drops the keys of a reservation made since its read, each reservation processed once and in time and no requests overlapping, sells a seat twice |
| Runs.ReservationLasts | internal/repository/rediscache/reserveCache.go:110-159 | a reservation can be read, unchanged, after any run exactly until its deadline passes or a delete of it goes through; one without places exactly until its deadline |
| Runs.WriteOutcome | internal/repository/rediscache/reserveCache.go:70-126 | a written reservation is held, with its places, for exactly its time |
| Runs.TicketsOnlyClimb | internal/repository/mongorepository/cinemaOrdersRepository.go:83-230 | over every run a ticket changes only its status, its rank never falls, and its seat only goes from occupied to free |
| Runs.PaidWhatItCosts | internal/service/service.go:293-312 | the amount handed to payment is the order's total in every later state exactly while price times places fits 32 bits |
| Runs.PriceSettled | internal/repository/mongorepository/cinemaOrdersRepository.go:395-440 | no later step changes what an order costs |
| CacheSpec.ReserveMeans | internal/repository/rediscache/reserveCache.go:70-108 | what reserving does to every name and every index, and that it does nothing else |
| CacheSpec.DeleteMeans | internal/repository/rediscache/reserveCache.go:128-159 | what deleting does to every name and every index, and when it does nothing |
| CacheSpec.CleanMeans | internal/repository/rediscache/reserveCache.go:161-201 | cleaning leaves in one index exactly the names that have not expired, and changes nothing else |
| CacheSpec.ReservedMeans | internal/repository/rediscache/reserveCache.go:110-126 | the reserved places of a screening are those of its records whose deadline is still ahead |
| CacheSpec.ReserveExact | internal/repository/rediscache/reserveCache.go:70-108 | reserving adds exactly that reservation to the view, and keeps the invariant if and only if the places are distinct and none is reserved |
| CacheSpec.ReserveKeepsInv | internal/repository/rediscache/reserveCache.go:70-108 | reserving free places keeps index, place keys and records in agreement |
| CacheSpec.DeleteRefines | internal/repository/rediscache/reserveCache.go:128-159 | deleting removes exactly the named live reservation from the view; an expired or unknown id changes nothing at all |
| CacheSpec.DeleteSpares | internal/repository/rediscache/reserveCache.go:142-157 | another live reservation's place keys survive a delete with their deadlines |
| CacheSpec.ReserveThenDelete | internal/repository/rediscache/reserveCache.go:70-159 | reserve then delete gives back the reservations there were |
| CacheSpec.TickRefines | internal/repository/rediscache/reserveCache.go:81-95 | when time passes, whole reservations lapse together with all their keys |
| CacheSpec.CleanRefines | internal/repository/rediscache/reserveCache.go:161-201 | cleaning leaves the view unchanged and the index equal to the keys of the reserved places |
| CacheSpec.RemoveExact | internal/repository/rediscache/reserveCache.go:161-201 | a removal from the index decided some time before keeps the invariant if and only if no name it removes is alive again, unless a delete of it is on its way |
| CacheSpec.DropExact | internal/repository/rediscache/reserveCache.go:142-157 | dropping keys read some time before keeps the invariant if and only if no other live reservation lists one of the places |
| Booking.ReadingCleans | internal/repository/rediscache/reserveCache.go:161-226 | the three commands of a reading, with nobody in between, clean the index in one step |
| Booking.DeletingDeletes | internal/repository/rediscache/reserveCache.go:128-159 | the three commands of a delete, with nobody in between, are the specified delete |
| CacheSpec.ReservedKey | internal/repository/rediscache/reserveCache.go:161-180 | a place is reserved exactly when its key is alive, and then the index has it |
| ReservationCache.ReserveCache.ReservePlaces | internal/repository/rediscache/reserveCache.go:70-108 | over text keys, the effect is exactly the specified reserve; no places is an error |
| ReservationCache.ReserveCache.GetReservation | internal/repository/rediscache/reserveCache.go:110-126 | for any text, returns the places and screening of the live reservation of that name, and an error when there is none |
| ReservationCache.ReserveCache.DeletePlacesReservation | internal/repository/rediscache/reserveCache.go:128-159 | over text keys, the effect is exactly the specified delete for any text given |
| ReservationCache.ReserveCache.RemoveNonexistantKeys | internal/repository/rediscache/reserveCache.go:161-201 | the shortcut by counting and the padded removal list leave exactly the live keys indexed and returned |
| ReservationCache.ReserveCache.GetReservedPlacesForScreening | internal/repository/rediscache/reserveCache.go:203-226 | returns each place of a live reservation of the screening exactly once, and changes nothing but the index |
| ReservationCache.ReserveCache.GetScreeningsReservedPlaces | internal/repository/rediscache/reserveCache.go:228-242 | a duplicate-free entry for every id asked for, exact if its last reading got through and empty if it failed; a failure is never reported |
| ReservationCache.ReachedLastMeans | internal/repository/rediscache/reserveCache.go:228-242 | of several readings of one screening in a batch, the last one counts |
| PlaceKeys.ParsePlaceKey | internal/repository/rediscache/reserveCache.go:35-63 | a printed place key splits into screening, row and seat, and parsing it gives them back, for every int64 and two int32s |
| PlaceKeys.ParseKeyExact | internal/repository/rediscache/reserveCache.go:38-63 | for any text, what parsing gives back and whether it fails, part by part |
| Strings.ParseIntSyntax | internal/repository/rediscache/reserveCache.go:45-60 | a number is accepted if and only if it is digits behind at most one sign |
| Strings.ParseIntValue | internal/repository/rediscache/reserveCache.go:45-60 | and then its decimal value counts, or the end of the range it is beyond |
| PlaceKeys.ReadPlaceKey | internal/repository/rediscache/reserveCache.go:35-63 | a place key is never read as any other name, so printing is injective |
| PlaceKeys.ReadSetName | internal/repository/rediscache/reserveCache.go:97-97 | an index set's name is never read as a place key or a record |
| PlaceKeys.ReadUuid | internal/repository/rediscache/reserveCache.go:80-84 | a reservation id is never read as a place key or a set name |
| SliceUtils.IsSlicesEqual | pkg/sliceutils/sliceutils.go:25-46 | true exactly when the slices are equal as multisets |
| SliceUtils.UniqueMergeSlices | pkg/sliceutils/sliceutils.go:8-22 | each element of either slice exactly once |
| SliceUtils.RemoveDuplicates | pkg/sliceutils/sliceutils.go:48-56 | each element of the slice exactly once |
| SliceUtils.RepresentativesOnePerClass | pkg/sliceutils/sliceutils.go:58-74 | for an equivalence, keeps exactly the first member of every class |
| SliceUtils.RepresentativesInOrder | pkg/sliceutils/sliceutils.go:58-74 | and keeps them in the order in which their classes first occur |
| SliceUtils.Compare | pkg/sliceutils/sliceutils.go:76-83 | true exactly when the element occurs |
| Tickets.ItemsCommitExactly | internal/repository/mongorepository/cinemaOrdersRepository.go:189-230 | the item update commits if and only if the items are distinct and each is the id of a ticket of the order whose status the new one may follow; then exactly those change, otherwise none |
| Tickets.Transitions | internal/models/order.go:47-61 | one status may follow another if and only if the two are one of the six edges |
| OrdersRepo.OrdersRepository.ChangeOrderStatus | internal/repository/mongorepository/cinemaOrdersRepository.go:83-106 | exactly the order's tickets move whose status the new one may follow |
| OrdersRepo.OrdersRepository.CancelOrder | internal/repository/mongorepository/cinemaOrdersRepository.go:152-188 | exactly the order's tickets awaiting payment become CANCELED |
| OrdersRepo.OrdersRepository.ChangeOrderItemsStatus | internal/repository/mongorepository/cinemaOrdersRepository.go:189-230 | success and the new collection are decided by that condition |
| Tickets.LivesArePaths | internal/models/order.go:47-61 | the paths of the status graph from PAYMENT_REQUIRED are exactly the beginnings of three lives |
| Tickets.StatusHistory | internal/models/order.go:47-61 | under any updates a ticket's history is one of those lives and climbs at every change |
| Tickets.EveryLifeIsLed | internal/models/order.go:47-61 | each path of the graph is the history of some run of updates |
| Tickets.SeatOnlyFreed | internal/models/order.go:47-61 | CANCELED and REFUNDED absorb, and a free seat is never taken back by its ticket |
| Tickets.ItemsRefusedTwice | internal/paymentservice/paymentServiceStub.go:59-74 | a committed item update is refused when tried again and changes nothing more |
| OrdersRepo.OrdersRepository.GetOccupiedPlaces | internal/repository/mongorepository/cinemaOrdersRepository.go:45-81 | lists exactly the places of the screening's tickets that are neither CANCELED nor REFUNDED |
| Tickets.SeatTaken | internal/repository/mongorepository/cinemaOrdersRepository.go:45-81 | an occupied place is one with a ticket of the screening that is neither CANCELED nor REFUNDED |
| OrdersRepo.SeatListIsOccupied | internal/repository/mongorepository/cinemaOrdersRepository.go:45-81 | the find lists exactly the places held by a ticket that is neither CANCELED nor REFUNDED |
| OrdersRepo.OrdersRepository.GetScreeningsOccupiedPlaces | internal/repository/mongorepository/cinemaOrdersRepository.go:232-292 | an entry exactly for the ids asked for that have an occupied place, listing what the single query lists |
| OrdersRepo.OrdersRepository.GetOrderItemsStatuses | internal/repository/mongorepository/cinemaOrdersRepository.go:108-150 | each status that a ticket of the order has and the service knows, once |
| OrdersRepo.OrdersRepository.ProcessOrder | internal/repository/mongorepository/cinemaOrdersRepository.go:294-344 | appends one ticket per place, with every field given; the owner's tickets cost price times places more, and nobody else's |
| OrdersRepo.OrdersRepository.GetOrderTotalPrice | internal/repository/mongorepository/cinemaOrdersRepository.go:395-440 | the sum of the order's ticket prices if it fits 32 bits, and otherwise an error |
| Race.FirstWins | internal/service/service.go:356-367 | under any whole-order updates the first of paying and canceling decides for all tickets of the order |
| Race.LoserChangesNothing | internal/repository/mongorepository/cinemaOrdersRepository.go:83-106 | once one of them took effect the other changes nothing |
| Race.OneStatusThroughout | internal/paymentservice/paymentServiceStub.go:76-93 | in every interleaving of the payment goroutine, the notification path and the refund it starts, the order's tickets share exactly one status |
| Race.CanceledMeansUnpaid | internal/service/service.go:345-367 | an order that ends canceled was not paid for at any point of the interleaving |
| Race.PayerEnds | internal/paymentservice/paymentServiceStub.go:44-57 | three tries for each of at most three changes: after nine turns the payment goroutine is done |
| Race.PayerTurn | internal/paymentservice/paymentServiceStub.go:44-93 | what one try of the payer does to the order and to its chain: three tries, then a refund |
| Race.RefunderTurn | internal/paymentservice/paymentServiceStub.go:141-150 | what one try of a refund does to the order and to its chain |
| Race.NotifierTurn | internal/service/service.go:345-367 | what the notification path does next: read the statuses, then cancel, start a refund, or neither |
| Race.PayDecides | internal/paymentservice/paymentServiceStub.go:76-93 | in every interleaving, a payment that takes effect on an order not canceled by then pays for it for good; a canceled order stays canceled |
| Race.RefundGoesThrough | internal/service/service.go:357-361 | in every interleaving, once a failed notification acts on a paid order whose total fits 32 bits, the order is REFUNDED if each of the two changes is reported within three tries |
| Race.RefundCompletes | internal/paymentservice/paymentServiceStub.go:141-150 | in every interleaving, once the refund of a failed notification has reported both of its changes the order is REFUNDED in every later state |
| Race.PayerRefundSettles | internal/paymentservice/paymentServiceStub.go:76-93 | in every interleaving, once the payer's own refund has reported both of its changes the order is unpaid, canceled or refunded in every later state |
| Race.CancelDecides | internal/service/service.go:356-367 | in every interleaving, a cancellation decided on an order read as unpaid cancels it for good if and only if it is still unpaid then; otherwise it stays paid for |
| Runs.NewOrderStartsRace | internal/service/service.go:302-327 | an order just inserted has tickets, all awaiting payment |
| PaymentService.PaymentServiceStub.ChangeOrderStatus | internal/paymentservice/paymentServiceStub.go:44-57 | three tries that may take effect and still report failure leave the store untouched or as one application would |
| PaymentService.PaymentServiceStub.ChangeOrderItemsStatus | internal/paymentservice/paymentServiceStub.go:59-74 | applied once or not at all; success is reported exactly when it commits and, unless no items are listed, the first try that gets through is the one whose reply arrives |
| PaymentService.PaymentServiceStub.OrderRefundRequest | internal/paymentservice/paymentServiceStub.go:141-150 | none, the first or both of the refund's changes take effect, decided exactly by the two lists of faults, and success is reported exactly when both are |
| PaymentService.PaymentServiceStub.OrderItemsRefundRequest | internal/paymentservice/paymentServiceStub.go:128-139 | the items end REFUNDED exactly when the first change commits and is reported at its first commit and the second gets through; otherwise they stay at REFUND_AWAITING or untouched, and nothing else changes |
| PaymentService.RefundedAfterAwaiting | internal/paymentservice/paymentServiceStub.go:128-139 | once the items await their refund, the change to REFUNDED commits for exactly them |
| PaymentService.PaymentServiceStub.RequestOrderRefund | internal/paymentservice/paymentServiceStub.go:95-108 | starts a refund, of three tries a change, exactly when the order's total can be read into 32 bits |
| PaymentService.FaultsMean | internal/paymentservice/paymentServiceStub.go:44-74 | which lists of three tries do the work, and which report a change of items in time |
| Service.CinemaOrdersService.GetOccupiedPlaces | internal/service/service.go:83-139 | in either order of the replies, each place that is ticketed or reserved exactly once, up to the first store that fails to answer; the reading of the cache cleans even when nobody waits for it |
| Service.CinemaOrdersService.GetScreeningsOccupiedPlacesCounts | internal/service/service.go:141-210 | every id asked for, or none if the tickets fail; each count covers the tickets, and the reservations if the reading got through, on 32 bits; below 2^32 it is what the single query lists if and only if the reading got through or every reserved place is ticketed |
| Service.MergeBoth | internal/service/service.go:176-203 | storing the first reply as it comes still gives duplicate-free lists in either order |
| Service.CountIsWhole | internal/service/service.go:204-207 | leaving out the reserved places leaves the count as it is if and only if all of them are ticketed |
| Quiet.ReserveStepsAddUp | internal/service/service.go:212-257 | the events of one request, with nobody in between, write if and only if the places are offered and seem free, and leave the stores settled if and only if they then are free |
| Service.CinemaOrdersService.ReservePlaces | internal/service/service.go:212-257 | the result in every case: a place seen taken, no screening, one that has started, a place it lacks, no places at all, or the reservation; its effect is the events of its look-ups and its write; the stores stay consistent if and only if what it writes was free |
| Service.CinemaOrdersService.ProcessOrder | internal/service/service.go:272-330 | the result in every case; on success the payment URL, a payer about to race the notification, one ticket a place with every field given, and the amount on 32 bits; its effect is a read and an insert, and only this account's tickets cost more |
| Service.CinemaOrdersService.SendOrderCreatedNotification | internal/service/service.go:332-368 | requests the refund of a paid order, cancels one awaiting payment, and otherwise leaves the tickets alone |
| Refund.RefundTable | internal/service/service.go:395-420 | for all start times and all now: refused below 2.5 days since the start, 30 percent on [2.5, 3.5) and [5.5, 9.5), 50 on [3.5, 5.5), 100 from 9.5 |
| Refund.RoundNearest | internal/service/service.go:406-406 | away from the ends of the range, the elapsed time is rounded to the nearest whole day, halves away from zero |
| Handler.ConvertGrpcPlacesToModels | internal/handler/handler.go:313-326 | the places that are present, each once |
| Handler.RequestedPlaces | internal/handler/handler.go:51-57 | accepts exactly one to five entries and makes them distinct |
| Handler.CheckIdsExact | internal/handler/handler.go:248-250 | accepts exactly the comma-joins of non-empty digit strings, and splitting then joining gives the text back |
| Handler.CheckIdsChars | internal/handler/handler.go:248-250 | accepts exactly the non-empty texts of digits and commas in which no comma comes first, last or after another |
| Handler.ConvertStringToInt64Slice | internal/handler/handler.go:239-246 | for any texts, the parsed values in order: zero for no number, clamped when out of range |
| Listing.GroupConserves | internal/repository/mongorepository/cinemaOrdersRepository.go:356-373 | one preview for each order of the account with that order's total, and all totals together what the account's tickets cost |
| Listing.PreviewsAre | internal/repository/mongorepository/cinemaOrdersRepository.go:356-373 | one preview for each order the account has a ticket of, with the sum of what its tickets of it cost |
| Listing.PreviewIsOfFirst | internal/repository/mongorepository/cinemaOrdersRepository.go:356-373 | with the date and screening of the account's first ticket of the order |
| Listing.OwnedIs | internal/repository/mongorepository/cinemaOrdersRepository.go:350-355 | the account's tickets are exactly those it owns, each as often as it is there |
| Listing.AccountGrows | internal/repository/mongorepository/cinemaOrdersRepository.go:294-344 | tickets of one owner at one price raise what that account's tickets cost by price times their number, and nobody else's |
| Listing.PageIs | internal/repository/mongorepository/cinemaOrdersRepository.go:374-376 | where the page returned and the page asked for start and end |
| Listing.PagesConcatenate | internal/repository/mongorepository/cinemaOrdersRepository.go:374-376 | consecutive pages put together are the list from its start, up to page times limit |
| Listing.PageExact | internal/repository/mongorepository/cinemaOrdersRepository.go:375-375 | the page returned is the page asked for, for every list, exactly while the product fits 32 bits |
| Listing.WrappedPage | internal/repository/mongorepository/cinemaOrdersRepository.go:375-375 | page 268435457 of 16 shows the first page again |

## Left out

- Service.CinemaOrdersService.ReservePlaces: the method is stated for a call that nobody interrupts and for stores that agree before it; its events are interleaved, from any sound state, in `runs.dfy`.
- ReservationCache.ReserveCache.ReservePlaces: the commands of its pipeline take effect together, with one deadline; a pipeline cut off half way is not modelled.
- ReservationCache.ReserveCache.RemoveNonexistantKeys: the method reads and removes with nobody in between; the runs have its commands apart.
- ReservationCache.ReserveCache.DeletePlacesReservation: the method reads, unindexes and drops with nobody in between; the runs have its commands apart.
- Stores that fail to answer anything but a look-up of places, cancelled contexts, logging, and the mapping of errors to codes of other protocols.
- JSON and BSON encodings: a reservation record is a datatype, a ticket document is a datatype.
- Network clients and the message queue: their replies are parameters.
- `GetOrderItemsTotalPrice`, whose filter ignores the items asked for, and the refund amount, which is computed and then not used.
- `GetOrder`'s collection of two replies and the conversions between message types: single branches and copies.
- The order of a sorted list: pages are proved over any fixed list, and previews are grouped in the order of their first ticket.
- Trimming and the removal of quotation marks before an id list is checked.
- Liveness: nothing is said about when a goroutine runs, only about every order in which they can.
