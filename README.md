# Event ticketing core, modelled in Dafny

The system is an event-booking web application. An Express/Mongoose backend keeps four collections: events, ticket types (categories of admission with a remaining capacity), bookings (called tickets: a user's line items with generated seat labels), and payments (one record per Razorpay order). A React client lets a user filter the event list and pick quantities per ticket type.

This project models the booking core:

- **Booking** (`ticketController.js`):
  - the availability check;
  - capacity debits and seat labels (`UPPER(type)-n`, smallest free counters first);
  - the compensating rollback;
  - order creation;
  - the payment-status transitions of a booking.
- **Payment ledger** (`paymentController.js`):
  - payment details;
  - payment records created per gateway order;
  - the signed gateway callback that completes a payment, or fails it and rolls the booking back;
  - the latest-payment status query.
- **Ticket-type catalogue** (`ticketTypeController.js`):
  - listing by event;
  - bulk creation, with the `(eventId, type)` uniqueness index;
  - partial update.
- **Record schemas** (`Ticket.js`, `TicketType.js`, `Payment.js`), including the payment status enum and its default.
- **Quantity selector** (`SelectTickets.jsx`):
  - clamped increase and decrease;
  - the running total;
  - the request body it submits.
- **Event-list filter** (`Eventslist.jsx`).

Files:

| file | module | contents |
|---|---|---|
| `models.dfy` | `Models` | records, request lines, replies (`Ok` / `Err(NotFound \| BadRequest \| ServerError)`) |
| `store.dfy` | `Database` | the `Store` class: one field per collection, an id counter and a creation clock; its structural invariant `Valid` (unique ids, unique `(eventId, type)`, unique `orderId`, increasing `createdAt`); the domain invariant `Consistent` (capacities and booked quantities non-negative, seat labels unique per event and type); single-record updates |
| `seats.dfy` | `Seats` | seat labels, `getExistingSeats`, `generateSeatNumbers` (a `while` loop proved against `SeatNumbers`) |
| `strings.dfy` | `Strings` | ASCII case mapping, substring test, decimal rendering, `join` |
| `sequences.dfy` | `Sequences` | order-preserving subsequence |
| `gateway.dfy` | `Gateway` | the order request, the gateway as a function, the HMAC signer as an uninterpreted function, `order_id + "\|" + payment_id` |
| `ticket_controller.dfy` | `TicketController` | the booking handlers |
| `payment_controller.dfy` | `PaymentController` | the payment handlers |
| `ticket_type_controller.dfy` | `TicketTypeController` | the catalogue handlers |
| `select_tickets.dfy` | `SelectTickets` | the quantity selector |
| `events_list.dfy` | `EventsList` | the client filter |

Modelling rules:

- Each handler that changes the store is a method that takes the `Store` (`modifies db`); only the single-record writes (`InsertTicket`, `DeleteTicket`, `AdjustTypeCapacity`, …) are methods of `Store` itself. A handler states its reply and the whole new state, in terms of pure functions (`Debited`, `Credited`, `ShiftSeats`, `BookedItems`, `Admit`, `Apply`, …). The lemmas about those functions carry the promises: undo, preserved invariants, membership and order.
- Collections are sequences in insertion order:
  - `findOne` is the first match;
  - `find` is an order-preserving filter;
  - `findById` looks up the unique id.
- Money is whole rupees (`int`).
- Identifiers are natural numbers.
- `createdAt` is a counter that each insertion advances.

Where the code and its documentation disagree, the model follows the code. The booking's stored line price is the price the client sent (`...ticket` at `ticketController.js:89-92`), not the catalogue price. The client does fill it in from the catalogue (`SelectTickets.RequestLines`).

## Model

| member | source | states |
|---|---|---|
| Seats.GenerateSeatNumbers | Backend/controllers/ticketController.js:26-39 | the loop returns exactly `SeatNumbers(existing, type, quantity)`; termination rests on at most `\|existing\|` counters being skipped |
| Seats.SeatNumbersSpec | Backend/controllers/ticketController.js:26-39 | exactly `quantity` labels (none for quantity ≤ 0), none already in `existing`, pairwise distinct; each is `UPPER(type)-n` with n ≥ 1, counters strictly increasing, and every smaller free counter is used (the `quantity` smallest free counters) |
| Seats.CounterBudget | Backend/controllers/ticketController.js:28-35 | after counting up to `upto`, the free counters plus the skipped (already taken) labels number `upto`, and the skipped labels are at most `\|existing\|` |
| Seats.LabelInjective | Backend/controllers/ticketController.js:31 | two labels of one type are equal only for equal counters |
| Seats.FreeCountersComplete | Backend/controllers/ticketController.js:30-36 | every counter up to the bound whose label is free is issued |
| Seats.ExistingSeatsIff | Backend/controllers/ticketController.js:12-23 | a label is returned iff some booking of that event has a line item of that type holding it |
| Seats.ExistingSeatsAppend | Backend/controllers/ticketController.js:18-22 | the seats of concatenated booking lists are concatenated in booking order |
| Strings.NatToStringInjective | Backend/controllers/ticketController.js:31 | distinct counters render to distinct decimal strings |
| Database.FindTypeIndex | Backend/controllers/ticketController.js:53-56 | the first ticket type with that event id and type, or none when no stored type matches |
| Database.AdjustCapacity | Backend/controllers/ticketController.js:86 | exactly the ticket types with that event id and type change, by the given amount |
| Database.Store.AdjustTypeCapacity | Backend/controllers/ticketController.js:74-87 | saving the adjusted ticket type leaves keys and ids as they were |
| Database.ShiftSeats | Backend/controllers/ticketController.js:104-106 | only the named event's `availableSeats` changes, by the given amount; a missing event changes nothing |
| Database.ShiftSeatsInverse | Backend/controllers/ticketController.js:140-146 | giving the seats back undoes taking them |
| Database.Store.InsertTicket | Backend/controllers/ticketController.js:96-101 | the booking must carry the next id and be stamped with the current clock (the schema's `timestamps: true`); it is appended, ids stay fresh and unique, and the id counter and the clock advance |
| Database.Store.DeleteTicket | Backend/controllers/ticketController.js:149 | exactly that booking is removed, and ids stay unique |
| TicketController.CheckLinesNoneIff | Backend/controllers/ticketController.js:52-69 | the availability check passes iff every line's type exists for the event with at least the requested capacity |
| TicketController.CheckLinesFirst | Backend/controllers/ticketController.js:52-69 | the reply is the failure of the first failing line (404 for a missing type, 400 for too little capacity) |
| TicketController.CheckRequest | Backend/controllers/ticketController.js:52-69 | the loop over the request returns exactly `CheckLines` of the stored ticket types |
| TicketController.DebitedPointwise | Backend/controllers/ticketController.js:72-93 | after the debits each of the event's ticket types has lost the summed quantity of its lines; all other ticket types are unchanged |
| TicketController.CreditedPointwise | Backend/controllers/ticketController.js:128-138 | after the credits each of the event's ticket types has gained the summed quantity of its lines; missing types are skipped |
| TicketController.CreditUndoesDebit | Backend/controllers/ticketController.js:86-135 | crediting the same lines after debiting them restores every ticket type |
| TicketController.DebitKeepsCapacities | Backend/controllers/ticketController.js:64-87 | with distinct request types that passed the check, no capacity goes negative |
| TicketController.CreditKeepsCapacities | Backend/controllers/ticketController.js:134-136 | crediting non-negative quantities keeps capacities non-negative |
| TicketController.BookedItems | Backend/controllers/ticketController.js:72-93 | each stored line item is the request line (client type, quantity, price) plus the seat labels generated against the existing seats of its type |
| TicketController.BookedQuantity | Backend/controllers/ticketController.js:104 | the stored line items give back the request lines, and their total quantity is the request's |
| TicketController.ReserveLines | Backend/controllers/ticketController.js:72-93 | the loop debits exactly `Debited` and returns exactly `BookedItems` |
| TicketController.StoreBooking | Backend/controllers/ticketController.js:96-106 | the new booking is appended with the next id and creation time, and the event loses the request's total quantity |
| TicketController.BookChecked | Backend/controllers/ticketController.js:72-106 | after a passed check the capacities are debited; with the schema's required strings present the booking is stored and the event's seats drop, otherwise 400 with only the debits done |
| TicketController.CreateTicket | Backend/controllers/ticketController.js:41-115 | a missing event (404) or a failing line (404/400) answers before any change; otherwise as `BookChecked`, and with distinct types and non-negative quantities the store stays consistent |
| TicketController.BookingKeepsSeatsUnique | Backend/controllers/ticketController.js:79-91 | a booking made from distinct types keeps seat labels unique per event and type across all bookings |
| TicketController.BookingKeepsQuantities | Backend/models/Ticket.js:18-21 | a booking made from non-negative request quantities keeps every stored quantity non-negative |
| TicketController.DebitKeepsInventory | Backend/controllers/ticketController.js:58-87 | a passed check with distinct types keeps the domain invariant, even when the booking is then refused |
| TicketController.BookingKeepsInventory | Backend/controllers/ticketController.js:72-106 | the debits plus the stored booking keep the domain invariant |
| TicketController.RollbackRestoresTypes | Backend/controllers/ticketController.js:128-138 | rolling back a booking restores every ticket type to what it was before the booking |
| TicketController.RollbackRestoresSeats | Backend/controllers/ticketController.js:141-146 | rolling back a booking restores the event's `availableSeats` |
| TicketController.ReleaseItems | Backend/controllers/ticketController.js:127-138 | the loop credits exactly `Credited` of the booking's lines |
| TicketController.RollbackTicketBooking | Backend/controllers/ticketController.js:118-155 | a missing booking gives 404 with no change; otherwise the capacities are credited, the event's seats are given back, the booking is deleted, and consistency is kept |
| TicketController.UnissuedIdNotFound | Backend/controllers/ticketController.js:121-124 | an id at or above every issued id finds no booking, so the rollback answers 404 |
| TicketController.AppendedFoundLast | Backend/controllers/ticketController.js:121-124 | the booking just created under a fresh id is the one `findById` returns, and deleting it gives back the earlier bookings |
| TicketController.BookThenRollback | Backend/controllers/ticketController.js:41-155 | a booking rolled back at once leaves the ticket types, the events and the bookings exactly as before, and rolling back the same id again gives 404 |
| TicketController.RemoveKeepsSeatsUnique | Backend/controllers/ticketController.js:149 | deleting a booking keeps seat labels unique |
| TicketController.RemoveKeepsInventory | Backend/controllers/ticketController.js:127-149 | crediting a booking's lines and deleting it keeps the domain invariant |
| TicketController.ReplaceKeepsInventory | Backend/controllers/ticketController.js:196-209 | rewriting a booking's payment fields keeps the domain invariant |
| TicketController.UpdatePaymentStatus | Backend/controllers/ticketController.js:186-214 | 404 for a missing booking; otherwise status and payment id are overwritten, and for `completed` the event's seats drop by the booking's total a second time |
| TicketController.CreateOrder | Backend/controllers/ticketController.js:218-246 | 404 for a missing booking; the gateway is asked for `totalAmount * 100` paise in INR with the booking id as receipt; on success the order id is stored on the booking and the reply carries `amount = totalAmount` |
| TicketController.VerifyPaymentAsWritten | Backend/controllers/ticketController.js:249-283 | `require` is undefined in the ES module, so every call answers 500 and changes nothing |
| TicketController.VerifyPayment | Backend/controllers/ticketController.js:249-283 | a mismatched signature gives 400 and no change; a match answers success; the booking with that order id becomes completed with the payment id, and its event's seats drop again; no matching booking means no change |
| TicketController.CompleteOrder | Backend/controllers/ticketController.js:262-276 | the first booking with the order id is completed and its event's seats drop by its total |
| Gateway.MinorUnits | Backend/controllers/ticketController.js:228 | the amount sent to the gateway is a whole number of paise equal to the rupee total |
| Gateway.SignedBody | Backend/controllers/ticketController.js:254 | the signed text is the order id, `\|`, then the payment id |
| PaymentController.ItemViews | Backend/controllers/paymentController.js:27-32 | each line item's type, quantity, seat labels and price are copied in order |
| PaymentController.ItemViewsRoundTrip | Backend/controllers/paymentController.js:27-32 | the view loses nothing: the line items can be rebuilt from it |
| PaymentController.GetPaymentDetails | Backend/controllers/paymentController.js:11-41 | 404 iff the booking is missing; 500 iff its event is missing; otherwise the event's title, date and location, the booking's items, total and payment status |
| PaymentController.PaymentOrderNotes | Backend/controllers/paymentController.js:53-62 | the order asks for `totalAmount * 100` with the booking id as receipt, and its `ticketTypes` note contains every line item's type |
| Strings.JoinContainsEach | Backend/controllers/paymentController.js:60 | every joined element occurs in the joined string |
| PaymentController.CreatePayment | Backend/controllers/paymentController.js:44-83 | 404 and no record for a missing booking; 500 and no record when the gateway fails or returns an order id that is empty or already recorded; otherwise one pending payment `{ticketId, orderId, amount = totalAmount}` is appended and the reply carries `amount = totalAmount` |
| Models.NewPayment | Backend/controllers/paymentController.js:67-72 | a new payment is pending (also the schema default) with no payment id and no verification time |
| Database.Store.InsertPayment | Backend/models/Payment.js:9-13 | appending a payment whose order id is not yet recorded keeps order ids unique |
| Database.Store.InsertTicketType | Backend/models/TicketType.js:30 | appending a ticket type whose `(eventId, type)` is free keeps the index unique |
| PaymentController.Confirmed | Backend/controllers/paymentController.js:104-106 | a confirmed payment is completed with the payment id and verification time; its ticket, order, amount and creation time are kept |
| PaymentController.Refused | Backend/controllers/paymentController.js:114 | a refused payment is failed whatever its prior status, and nothing else changes |
| PaymentController.ConfirmPayment | Backend/controllers/paymentController.js:100-109 | only the payment with that order id is confirmed; no match, no change |
| PaymentController.RefusePayment | Backend/controllers/paymentController.js:110-122 | the payment with that order id is failed and its booking rolled back as `RollbackTicketBooking` does; no match, no change |
| PaymentController.VerifyPayment | Backend/controllers/paymentController.js:86-130 | accepted iff the signature is authentic; authentic completes the matching payment and changes nothing else; forged fails it and rolls its booking back; with no matching payment nothing changes; consistency is kept |
| PaymentController.LatestPayment | Backend/controllers/paymentController.js:136 | none iff no payment has the ticket id; otherwise a payment of that ticket with the greatest creation time |
| PaymentController.LatestIsLast | Backend/controllers/paymentController.js:136 | with creation times increasing in store order, no later record belongs to that ticket |
| PaymentController.GetPaymentStatus | Backend/controllers/paymentController.js:133-151 | 404 iff there is no payment for the ticket; otherwise status, amount, createdAt and verifiedAt of its latest payment |
| TicketTypeController.GetTicketTypes | Backend/controllers/ticketTypeController.js:5-17 | 400 iff no event id is given; otherwise exactly the ticket types of that event |
| TicketTypeController.TypesOfEventIff | Backend/controllers/ticketTypeController.js:12 | a ticket type is listed iff it is stored with that event id |
| TicketTypeController.TypesOfEventInOrder | Backend/controllers/ticketTypeController.js:12 | the listing is a subsequence of the stored ticket types |
| TicketTypeController.NewType | Backend/controllers/ticketTypeController.js:32-36 | a created ticket type has the request's event id and type, and `availableQuantity = maxQuantity` |
| TicketTypeController.Admit | Backend/controllers/ticketTypeController.js:31-37 | created ticket types are appended in entry order with consecutive ids and the request's event id |
| TicketTypeController.AdmitFailedIff | Backend/controllers/ticketTypeController.js:31-41 | the request fails (400) iff some entry was not created |
| TicketTypeController.AdmitAll | Backend/controllers/ticketTypeController.js:31-39 | when nothing fails, entry k creates exactly `NewType(nextId + k, eventId, entry k)` |
| TicketTypeController.AdmitSucceeds | Backend/controllers/ticketTypeController.js:31-39 | complete entries with distinct types not yet stored for the event are all created |
| TicketTypeController.AdmitKeepsCapacities | Backend/controllers/ticketTypeController.js:31-37 | non-negative `maxQuantity` values keep every capacity non-negative |
| TicketTypeController.CreateTicketType | Backend/controllers/ticketTypeController.js:20-43 | 404 and no change for a missing event; otherwise the store holds exactly what `Admit` creates, with 201 and the created types, or 400 if one entry was refused |
| TicketTypeController.Apply | Backend/controllers/ticketTypeController.js:48-52 | an update never changes the record's id |
| TicketTypeController.ApplyNoChange | Backend/controllers/ticketTypeController.js:48-52 | an empty body leaves the record unchanged |
| TicketTypeController.ApplyIdempotent | Backend/controllers/ticketTypeController.js:48-52 | applying the same body twice equals applying it once |
| TicketTypeController.ApplyTwice | Backend/controllers/ticketTypeController.js:48-52 | two updates in a row equal one update with the later body's fields winning |
| TicketTypeController.UpdateKeepsCapacities | Backend/controllers/ticketTypeController.js:48-52 | an update with no negative capacity keeps every capacity non-negative |
| TicketTypeController.UpdateTicketType | Backend/controllers/ticketTypeController.js:46-62 | 404 for a missing id; 400 if the update would clash with another ticket type's `(eventId, type)`; otherwise only that record changes, to the body's fields over the stored ones |
| Database.Store.ReplaceTicketType | Backend/models/TicketType.js:30 | overwriting one record with a key no other record holds keeps the index unique |
| SelectTickets.PutGet | Frontend/src/components/events/SelectTickets.jsx:61-64 | writing a key reads back the written value and leaves every other key's value unchanged; keys stay unique |
| SelectTickets.Initial | Frontend/src/components/events/SelectTickets.jsx:44-48 | the initial selection has unique keys, all at quantity 0 |
| SelectTickets.InitialZero | Frontend/src/components/events/SelectTickets.jsx:44-48 | every fetched type's key reads 0, and no other key exists |
| SelectTickets.DecreaseEffect | Frontend/src/components/events/SelectTickets.jsx:60-65 | decrease sets `max(0, q - 1)` and leaves other keys unchanged |
| SelectTickets.IncreaseEffect | Frontend/src/components/events/SelectTickets.jsx:67-72 | increase sets `min(max, q + 1)`, with a missing key counting as 0, and leaves other keys unchanged |
| SelectTickets.DecreaseUndoesIncrease | Frontend/src/components/events/SelectTickets.jsx:60-72 | a decrease after an unclamped increase restores every key's value |
| SelectTickets.InitialWithin | Frontend/src/components/events/SelectTickets.jsx:44-48 | the initial selection lies within `[0, availableQuantity]` for every type |
| SelectTickets.IncreaseWithin | Frontend/src/components/events/SelectTickets.jsx:225-229 | increasing with the type's own availability as maximum keeps the selection within capacity |
| SelectTickets.DecreaseWithin | Frontend/src/components/events/SelectTickets.jsx:60-65 | decreasing keeps the selection within capacity |
| SelectTickets.TotalPriceZero | Frontend/src/components/events/SelectTickets.jsx:74-77 | an all-zero selection totals 0 |
| SelectTickets.TotalPriceOfRequest | Frontend/src/components/events/SelectTickets.jsx:74-108 | with no negative quantity, the total sent equals the total over the submitted entries |
| SelectTickets.PositiveMembers | Frontend/src/components/events/SelectTickets.jsx:84-85 | an entry is submitted iff it is selected with a positive quantity |
| SelectTickets.PositiveInOrder | Frontend/src/components/events/SelectTickets.jsx:84-85 | the submitted entries keep the selection's order |
| SelectTickets.Priced | Frontend/src/components/events/SelectTickets.jsx:86-93 | pricing succeeds iff every submitted type is in the catalogue; then each line is the entry's type and quantity with the catalogue price |
| SelectTickets.NothingSelectedIff | Frontend/src/components/events/SelectTickets.jsx:84-97 | "Please select at least one ticket" is raised iff no quantity is positive |
| SelectTickets.RequestLines | Frontend/src/components/events/SelectTickets.jsx:84-97 | a submitted request has one line per positive entry, each with a positive quantity and the catalogue price, and distinct types |
| EventsList.FilterMembers | Frontend/src/components/events/Eventslist.jsx:135-150 | an event is shown iff it is fetched and passes the search, location, date and category tests |
| EventsList.FilterInOrder | Frontend/src/components/events/Eventslist.jsx:135 | the shown events keep the fetched order |
| EventsList.FilterIdempotent | Frontend/src/components/events/Eventslist.jsx:135-150 | filtering the shown list again changes nothing |
| EventsList.KeepAllKept | Frontend/src/components/events/Eventslist.jsx:135-150 | a list whose every event passes is shown whole |
| EventsList.UnfilteredShowsAll | Frontend/src/components/events/Eventslist.jsx:136-147 | an empty query, empty location, empty date and category "All" show every event |
| EventsList.SearchIgnoresCase | Frontend/src/components/events/Eventslist.jsx:136-138 | typing the query in capitals shows the same events |
| Strings.LowerOfUpper | Frontend/src/components/events/Eventslist.jsx:137 | lower-casing forgets any earlier upper-casing |
| Strings.ContainsIff | Frontend/src/components/events/Eventslist.jsx:137 | `includes` holds iff the needle occurs at some position of the text |

## Left out

- Cryptography: HMAC-SHA256 (RFC 2104 over SHA-256, FIPS 180-4) is the uninterpreted `Signer`. Authenticity is plain string equality, as in the code.
- The Razorpay gateway is a function from the order request to an optional order id. The public key id in the replies is configuration and is dropped.
- `paymentController.js:118-121` calls the rollback endpoint over HTTP. The model calls `RollbackTicketBooking` directly and ignores its reply, as the code ignores the response.
- `paymentController.js:123-124` writes two responses. Only the first (`failed`) is modelled, as the verdict `Rejected`.
- Concurrency: `Promise.all` over line items (`ticketController.js:72`, `ticketTypeController.js:31`) is modelled sequentially, in request order. Races between requests are not modelled.
- `TicketController.CreateTicket`: the preservation of the domain invariant is stated only for requests with distinct types and non-negative quantities. With a type named twice, the per-line check (`ticketController.js:51-68`) compares each line alone against the stored capacity, so both lines can pass together. The model then runs the lines in order and subtracts both quantities, so a capacity can go negative (capacity 4 and two lines of 3 give -2). The code's concurrent callbacks (`ticketController.js:72-93`) each load the same stored `availableQuantity` before any save, so typically all but the last decrement are lost (the same input leaves 1). In both, the two lines' seat labels collide.
- `TicketController.UpdatePaymentStatus` and `TicketController.VerifyPayment`: event seats are subtracted again, exactly as written. `availableSeats` is never checked and may go negative; the model states this rather than an invariant about it.
- `CreateTicket` mutates in stages. When `Ticket.create` rejects an empty `userId` or an empty line type, the capacity debits already made stay in place. The model keeps this partial update and answers 400.
- Mongoose details:
  - `populate` is modelled as a lookup in the events map; a booking whose event is gone gives 500 (`GetPaymentDetails`, `CreatePayment`). `select` is not modelled. Sorting by `createdAt` is modelled as choosing the greatest creation time.
  - Cast errors of malformed ids are not modelled. Ids are natural numbers, so an id is either found or not.
  - Schema types other than required strings are not modelled.
- The booking's payment fields (`paymentStatus`, `paymentId`, `razorpayOrderId`, `razorpayPaymentId`) are not declared in `Ticket.js`, and Mongoose's strict mode would drop them on save. The model keeps them, as the controller intends.
- `PaymentController.CreatePayment`: the gateway's order id is assumed fresh. An empty or already-recorded id is answered with 500 and no record, standing for the unique-index rejection.
- `PaymentController.ConfirmPayment`: `verifiedAt` is the store's clock at the call (`new Date()`), and confirming does not advance the clock.
- `TicketTypeController.UpdateTicketType`: `findByIdAndUpdate` runs no schema validators. The model does not check required fields on update, only the unique index, which the database enforces.
- `SelectTickets.Decrease`: requires the key to be present. The decrease button is disabled unless the type has a positive quantity (`SelectTickets.jsx:217`); on a missing key JavaScript would compute `NaN`.
- `SelectTickets`: `Object.entries` lists integer-like keys first in ascending order. The model uses insertion order, which is what ticket-type codes that are not array indices give.
- Case mapping is ASCII only (`toUpperCase`/`toLowerCase` on other letters are not modelled). Floating-point arithmetic (`totalAmount * 100` on fractional amounts, the client-side tax and display rounding) is not modelled: money is whole rupees.
- Timestamps are a counter that each insertion advances, not wall-clock time.
- Event CRUD and image upload (`eventController.js`, `upload.js`), routes, `server.js`, authentication and all rendering are outside the core. `getTickets` and `getTicketById` (`ticketController.js:158-183`) are read-only lookups with no property beyond `FindTicket`; they are not modelled.

## Findings

| source | as written | input that shows it | evidently intended | confidence | as-written member | corrected member |
|---|---|---|---|---|---|---|
| Backend/controllers/ticketController.js:255 | `const crypto = require('crypto')` inside an ES module (the file uses `import`), where `require` is not defined; the `ReferenceError` is caught and answered with 500 | any callback, e.g. a correctly signed `{razorpay_order_id: "o1", razorpay_payment_id: "p1", razorpay_signature: HMAC("o1\|p1")}` for a booking holding order `o1` | load `crypto` by `import`, as `paymentController.js:91` does, so an authentic callback completes the booking | not executed | TicketController.VerifyPaymentAsWritten | TicketController.VerifyPayment |
