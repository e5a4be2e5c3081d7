/** The payment ledger (Backend/controllers/paymentController.js): one
    `Payment` record per gateway order, moved from pending to completed or
    failed by the signed gateway callback, with the booking rolled back on
    a forged callback. */
module PaymentController {
  import opened Models
  import opened Strings
  import opened Database
  import opened Gateway
  import opened TicketController

  // ---------------------------------------------------------------------
  // Payment details

  /** One line of the payment view: `{ type, quantity, seatNumbers, price }`. */
  datatype ItemView = ItemView(code: string, quantity: int, seatNumbers: seq<string>, price: int)

  datatype PaymentDetails = PaymentDetails(
    eventTitle: string,
    eventDate: string,
    eventLocation: string,
    items: seq<ItemView>,
    totalAmount: int,
    paymentStatus: Option<string>)

  /** `ticket.tickets.map(t => ({ type, quantity, seatNumbers, price }))`. */
  function ItemViews(items: seq<LineItem>): (views: seq<ItemView>)
    ensures |views| == |items|
    ensures forall k :: 0 <= k < |items| ==>
      && views[k].code == items[k].code && views[k].quantity == items[k].quantity
      && views[k].seatNumbers == items[k].seatNumbers && views[k].price == items[k].price
  {
    seq(|items|, k requires 0 <= k < |items| => ItemView(items[k].code, items[k].quantity, items[k].seatNumbers, items[k].price))
  }

  /** The view loses nothing: the line items can be read back from it. */
  function ItemsOfViews(views: seq<ItemView>): (items: seq<LineItem>)
    ensures |items| == |views|
  {
    seq(|views|, k requires 0 <= k < |views| => LineItem(views[k].code, views[k].quantity, views[k].price, views[k].seatNumbers))
  }

  lemma ItemViewsRoundTrip(items: seq<LineItem>)
    ensures ItemsOfViews(ItemViews(items)) == items
  {
    var back := ItemsOfViews(ItemViews(items));
    forall k | 0 <= k < |items|
      ensures back[k] == items[k]
    {
    }
  }

  /** `getPaymentDetails` (paymentController.js:11-41): 404 for an unknown
      booking; a booking whose event is gone fails while reading the
      populated event (500); otherwise the event's title, date and location,
      the line items in order and the booking's total and status. */
  function GetPaymentDetails(events: map<EventId, Event>, tickets: seq<Ticket>, ticketId: TicketId): (r: Reply<PaymentDetails>)
    ensures FindTicket(tickets, ticketId).None? <==> r == Err(NotFound)
    ensures r == Err(ServerError) <==>
      FindTicket(tickets, ticketId).Some? && tickets[FindTicket(tickets, ticketId).value].eventId !in events
    ensures r.Ok? <==>
      FindTicket(tickets, ticketId).Some? && tickets[FindTicket(tickets, ticketId).value].eventId in events
    ensures r.Ok? ==>
      var t := tickets[FindTicket(tickets, ticketId).value];
      && t.id == ticketId && t.eventId in events
      && r.value.eventTitle == events[t.eventId].title && r.value.eventDate == events[t.eventId].date
      && r.value.eventLocation == events[t.eventId].location
      && ItemsOfViews(r.value.items) == t.items
      && r.value.totalAmount == t.totalAmount && r.value.paymentStatus == t.paymentStatus
  {
    match FindTicket(tickets, ticketId)
    case None => Err(NotFound)
    case Some(i) =>
      var t := tickets[i];
      if t.eventId !in events then Err(ServerError)
      else
        var e := events[t.eventId];
        ItemViewsRoundTrip(t.items);
        Ok(PaymentDetails(e.title, e.date, e.location, ItemViews(t.items), t.totalAmount, t.paymentStatus))
  }

  // ---------------------------------------------------------------------
  // Payment creation

  /** The order `createPayment` asks the gateway for
      (paymentController.js:53-62): the total in paise, the booking as
      receipt, and notes naming the event and the booked types. */
  function PaymentOrder(t: Ticket, e: Event): OrderRequest
  {
    OrderRequest(MinorUnits(t.totalAmount), Currency, t.id,
                 Some(OrderNotes(e.title, e.date, Join(ItemCodes(t.items), ", "))))
  }

  /** The order is for the booking's total, in paise, and its notes name
      every booked type. */
  lemma PaymentOrderNotes(t: Ticket, e: Event)
    ensures PaymentOrder(t, e).amount == t.totalAmount * 100 && PaymentOrder(t, e).receipt == t.id
    ensures PaymentOrder(t, e).notes.Some?
    ensures forall k :: 0 <= k < |t.items| ==> Contains(PaymentOrder(t, e).notes.value.ticketTypes, t.items[k].code)
  {
    forall k | 0 <= k < |t.items|
      ensures Contains(PaymentOrder(t, e).notes.value.ticketTypes, t.items[k].code)
    {
      JoinContainsEach(ItemCodes(t.items), ", ", k);
    }
  }

  /** `Payment.create` refuses an empty order id (required) and an order id
      already on record (unique), Backend/models/Payment.js:9-13. */
  predicate OrderIdAccepted(payments: seq<Payment>, orderId: string)
  {
    orderId != "" && orderId !in OrderIds(payments)
  }

  /** `createPayment` (paymentController.js:44-83): 404 for an unknown
      booking; 500 when its event is gone, the gateway fails or the order
      id cannot be stored; otherwise one pending payment for the booking's
      total is recorded and the reply carries the order id and the total in
      rupees. */
  method CreatePayment(db: Store, ticketId: TicketId, gateway: OrderGateway) returns (r: Reply<OrderReply>)
    requires db.Valid()
    modifies db`payments, db`clock
    ensures db.Valid()
    ensures FindTicket(db.tickets, ticketId).None? ==>
      r == Err(NotFound) && db.payments == old(db.payments) && db.clock == old(db.clock)
    ensures FindTicket(db.tickets, ticketId).Some? ==>
      var t := db.tickets[FindTicket(db.tickets, ticketId).value];
      && (t.eventId !in db.events ==>
            r == Err(ServerError) && db.payments == old(db.payments) && db.clock == old(db.clock))
      && (t.eventId in db.events ==>
            var order := gateway(PaymentOrder(t, db.events[t.eventId]));
            && (order.None? || !OrderIdAccepted(old(db.payments), order.value) ==>
                  r == Err(ServerError) && db.payments == old(db.payments) && db.clock == old(db.clock))
            && (order.Some? && OrderIdAccepted(old(db.payments), order.value) ==>
                  && r == Ok(OrderReply(order.value, t.totalAmount, Currency))
                  && db.payments == old(db.payments) + [NewPayment(t.id, order.value, t.totalAmount, old(db.clock))]
                  && db.clock == old(db.clock) + 1))
  {
    var idx := FindTicket(db.tickets, ticketId);
    if idx.None? {
      return Err(NotFound);
    }
    var t := db.tickets[idx.value];
    if t.eventId !in db.events {
      return Err(ServerError);
    }
    var order := gateway(PaymentOrder(t, db.events[t.eventId]));
    if order.None? || !OrderIdAccepted(db.payments, order.value) {
      return Err(ServerError);
    }
    db.InsertPayment(NewPayment(t.id, order.value, t.totalAmount, db.clock));
    r := Ok(OrderReply(order.value, t.totalAmount, Currency));
  }

  // ---------------------------------------------------------------------
  // Verification

  /** The body of the callback's answer: `success` or `failed`. */
  datatype Verdict = Accepted | Rejected

  /** A payment confirmed by the gateway: completed, with its payment id
      and verification time. */
  function Confirmed(p: Payment, paymentId: string, now: nat): (q: Payment)
    ensures q.status == Completed && q.paymentId == Some(paymentId) && q.verifiedAt == Some(now)
    ensures q.ticketId == p.ticketId && q.orderId == p.orderId && q.amount == p.amount && q.createdAt == p.createdAt
  {
    p.(status := Completed, paymentId := Some(paymentId), verifiedAt := Some(now))
  }

  /** A payment whose callback was forged: failed, whatever it was before. */
  function Refused(p: Payment): (q: Payment)
    ensures q.status == Failed
    ensures q.ticketId == p.ticketId && q.orderId == p.orderId && q.amount == p.amount && q.createdAt == p.createdAt
    ensures q.paymentId == p.paymentId && q.verifiedAt == p.verifiedAt
  {
    p.(status := Failed)
  }

  /** The authentic branch (paymentController.js:100-109): the payment with
      the order id, if any, is confirmed. */
  method ConfirmPayment(db: Store, orderId: string, paymentId: string)
    requires db.Valid()
    modifies db`payments
    ensures db.Valid()
    ensures FindPaymentByOrder(old(db.payments), orderId).None? ==> db.payments == old(db.payments)
    ensures FindPaymentByOrder(old(db.payments), orderId).Some? ==>
      var i := FindPaymentByOrder(old(db.payments), orderId).value;
      db.payments == old(db.payments)[i := Confirmed(old(db.payments)[i], paymentId, db.clock)]
  {
    var idx := FindPaymentByOrder(db.payments, orderId);
    if idx.Some? {
      var i := idx.value;
      db.ReplacePayment(i, Confirmed(db.payments[i], paymentId, db.clock));
    }
  }

  /** The forged branch (paymentController.js:110-124): the payment with
      the order id, if any, is marked failed and its booking rolled back;
      the rollback's own 404 for a booking already gone is not looked at. */
  method RefusePayment(db: Store, orderId: string)
    requires db.Valid()
    modifies db
    ensures db.Valid()
    ensures FindPaymentByOrder(old(db.payments), orderId).None? ==> unchanged(db)
    ensures FindPaymentByOrder(old(db.payments), orderId).Some? ==>
      var i := FindPaymentByOrder(old(db.payments), orderId).value;
      var p := old(db.payments)[i];
      && db.payments == old(db.payments)[i := Refused(p)]
      && db.nextId == old(db.nextId) && db.clock == old(db.clock)
      && (FindTicket(old(db.tickets), p.ticketId).None? ==>
            db.tickets == old(db.tickets) && db.ticketTypes == old(db.ticketTypes) && db.events == old(db.events))
      && (FindTicket(old(db.tickets), p.ticketId).Some? ==>
            var j := FindTicket(old(db.tickets), p.ticketId).value;
            var t := old(db.tickets)[j];
            && db.ticketTypes == Credited(old(db.ticketTypes), t.eventId, LinesOf(t.items))
            && db.events == ShiftSeats(old(db.events), t.eventId, ItemQuantity(t.items))
            && db.tickets == old(db.tickets)[..j] + old(db.tickets)[j + 1..])
    ensures old(db.Consistent()) ==> db.Consistent()
  {
    var idx := FindPaymentByOrder(db.payments, orderId);
    if idx.None? {
      return;
    }
    var i := idx.value;
    var p := db.payments[i];
    db.ReplacePayment(i, Refused(p));
    var _ := RollbackTicketBooking(db, p.ticketId);
  }

  /** `verifyPayment` (paymentController.js:86-130): the signature over
      `orderId|paymentId` decides between confirming the payment (success)
      and refusing it with a rollback (failed); either way an unknown order
      id changes nothing. */
  method VerifyPayment(db: Store, orderId: string, paymentId: string, signature: string, sign: Signer)
    returns (r: Verdict)
    requires db.Valid()
    modifies db
    ensures db.Valid()
    ensures r == Accepted <==> Authentic(sign, orderId, paymentId, signature)
    ensures FindPaymentByOrder(old(db.payments), orderId).None? ==> unchanged(db)
    ensures Authentic(sign, orderId, paymentId, signature) && FindPaymentByOrder(old(db.payments), orderId).Some? ==>
      var i := FindPaymentByOrder(old(db.payments), orderId).value;
      && db.payments == old(db.payments)[i := Confirmed(old(db.payments)[i], paymentId, old(db.clock))]
      && db.tickets == old(db.tickets) && db.ticketTypes == old(db.ticketTypes) && db.events == old(db.events)
      && db.nextId == old(db.nextId) && db.clock == old(db.clock)
    ensures !Authentic(sign, orderId, paymentId, signature) && FindPaymentByOrder(old(db.payments), orderId).Some? ==>
      var i := FindPaymentByOrder(old(db.payments), orderId).value;
      var p := old(db.payments)[i];
      && db.payments == old(db.payments)[i := Refused(p)]
      && db.nextId == old(db.nextId) && db.clock == old(db.clock)
      && (FindTicket(old(db.tickets), p.ticketId).None? ==>
            db.tickets == old(db.tickets) && db.ticketTypes == old(db.ticketTypes) && db.events == old(db.events))
      && (FindTicket(old(db.tickets), p.ticketId).Some? ==>
            var j := FindTicket(old(db.tickets), p.ticketId).value;
            var t := old(db.tickets)[j];
            && db.ticketTypes == Credited(old(db.ticketTypes), t.eventId, LinesOf(t.items))
            && db.events == ShiftSeats(old(db.events), t.eventId, ItemQuantity(t.items))
            && db.tickets == old(db.tickets)[..j] + old(db.tickets)[j + 1..])
    ensures old(db.Consistent()) ==> db.Consistent()
  {
    if Authentic(sign, orderId, paymentId, signature) {
      ConfirmPayment(db, orderId, paymentId);
      r := Accepted;
    } else {
      RefusePayment(db, orderId);
      r := Rejected;
    }
  }

  // ---------------------------------------------------------------------
  // Payment status

  /** The payment of a booking created last (`findOne({ ticketId })` sorted
      by `createdAt` descending); of two created at the same time the later
      record. */
  function LatestPayment(payments: seq<Payment>, ticketId: TicketId): (r: Option<nat>)
    ensures r.None? <==> forall j :: 0 <= j < |payments| ==> payments[j].ticketId != ticketId
    ensures r.Some? ==> r.value < |payments| && payments[r.value].ticketId == ticketId
    ensures r.Some? ==> forall j :: 0 <= j < |payments| && payments[j].ticketId == ticketId ==>
      payments[j].createdAt <= payments[r.value].createdAt
    decreases |payments|
  {
    if |payments| == 0 then None
    else
      var n := |payments| - 1;
      var r := LatestPayment(payments[..n], ticketId);
      assert forall j :: 0 <= j < n ==> payments[..n][j] == payments[j];
      if payments[n].ticketId == ticketId && (r.None? || payments[r.value].createdAt <= payments[n].createdAt)
      then Some(n)
      else r
  }

  /** In a ledger whose creation times grow with insertion order, the
      latest payment is the last one recorded for the booking. */
  lemma LatestIsLast(payments: seq<Payment>, ticketId: TicketId)
    requires Increasing(PaymentTimes(payments))
    requires LatestPayment(payments, ticketId).Some?
    ensures forall j :: LatestPayment(payments, ticketId).value < j < |payments| ==> payments[j].ticketId != ticketId
  {
    var i := LatestPayment(payments, ticketId).value;
    forall j | i < j < |payments|
      ensures payments[j].ticketId != ticketId
    {
      assert PaymentTimes(payments)[i] < PaymentTimes(payments)[j];
    }
  }

  datatype StatusView = StatusView(status: PayStatus, amount: int, createdAt: nat, verifiedAt: Option<nat>)

  /** `getPaymentStatus` (paymentController.js:133-151): 404 when the
      booking has no payment; otherwise the latest payment's status,
      amount and times. */
  function GetPaymentStatus(payments: seq<Payment>, ticketId: TicketId): (r: Reply<StatusView>)
    ensures r == Err(NotFound) <==> forall j :: 0 <= j < |payments| ==> payments[j].ticketId != ticketId
    ensures r.Ok? || r == Err(NotFound)
    ensures r.Ok? ==> exists j :: (
      && 0 <= j < |payments| && payments[j].ticketId == ticketId
      && r.value == StatusView(payments[j].status, payments[j].amount, payments[j].createdAt, payments[j].verifiedAt)
      && forall k :: 0 <= k < |payments| && payments[k].ticketId == ticketId ==> payments[k].createdAt <= payments[j].createdAt)
  {
    match LatestPayment(payments, ticketId)
    case None => Err(NotFound)
    case Some(i) =>
      var p := payments[i];
      Ok(StatusView(p.status, p.amount, p.createdAt, p.verifiedAt))
  }
}
