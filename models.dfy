/** The records the backend keeps in its document database
    (the schemas under Backend/models) and the shapes of the requests and replies that
    carry them. Identifiers are natural numbers; money is whole rupees. */
module Models {

  datatype Option<+T> = None | Some(value: T)

  type EventId = nat
  type TicketTypeId = nat
  type TicketId = nat

  /** How a request fails, by the HTTP status the controllers answer with:
      404, 400 and 500. */
  datatype Failure = NotFound | BadRequest | ServerError

  datatype Reply<+T> = Ok(value: T) | Err(failure: Failure)

  /** An event (Backend/models/Event.js). Only `availableSeats` is written
      by the core; the other fields are read by the client-side filter and
      copied into payment views. */
  datatype Event = Event(
    title: string,
    description: string,
    date: string,
    time: string,
    location: string,
    price: int,
    image: string,
    imageId: string,
    category: string,
    availableSeats: int)

  /** A ticket type (Backend/models/TicketType.js): one category of
      admission of one event, with its remaining capacity. */
  datatype TicketType = TicketType(
    id: TicketTypeId,
    eventId: EventId,
    code: string,          // the `type` field, e.g. "vip"
    name: string,
    price: int,
    benefits: seq<string>,
    availableQuantity: int)

  /** One line of a booking request as the client sends it:
      `{ type, quantity, price }`. */
  datatype RequestLine = RequestLine(code: string, quantity: int, price: int)

  /** One line item of a stored booking (Backend/models/Ticket.js:13-30). */
  datatype LineItem = LineItem(code: string, quantity: int, price: int, seatNumbers: seq<string>)

  /** A booking (Backend/models/Ticket.js). The four payment fields are not
      declared by the schema but are written by the ticket controller. */
  datatype Ticket = Ticket(
    id: TicketId,
    userId: string,
    eventId: EventId,
    items: seq<LineItem>,
    totalAmount: int,
    createdAt: nat,
    paymentStatus: Option<string>,
    paymentId: Option<string>,
    razorpayOrderId: Option<string>,
    razorpayPaymentId: Option<string>)

  /** The status enum of Backend/models/Payment.js:19-23. */
  datatype PayStatus = Pending | Completed | Failed

  /** A payment ledger entry (Backend/models/Payment.js). */
  datatype Payment = Payment(
    ticketId: TicketId,
    orderId: string,
    paymentId: Option<string>,
    amount: int,
    status: PayStatus,
    createdAt: nat,
    verifiedAt: Option<nat>)

  /** A new ledger entry: no payment id, no verification time, and status
      `pending`, which is also the schema default (Payment.js:22). */
  function NewPayment(ticketId: TicketId, orderId: string, amount: int, now: nat): (p: Payment)
    ensures p.ticketId == ticketId && p.orderId == orderId && p.amount == amount
    ensures p.status == Pending && p.paymentId == None && p.verifiedAt == None
    ensures p.createdAt == now
  {
    Payment(ticketId, orderId, None, amount, Pending, now, None)
  }

  /** The sum of the quantities of some request lines. */
  function RequestQuantity(lines: seq<RequestLine>): int
  {
    if |lines| == 0 then 0 else RequestQuantity(lines[..|lines| - 1]) + lines[|lines| - 1].quantity
  }

  /** `ticket.tickets.reduce((sum, t) => sum + t.quantity, 0)`. */
  function ItemQuantity(items: seq<LineItem>): int
  {
    if |items| == 0 then 0 else ItemQuantity(items[..|items| - 1]) + items[|items| - 1].quantity
  }

  /** The line-item type codes, in order (`tickets.map(t => t.type)`). */
  function ItemCodes(items: seq<LineItem>): (codes: seq<string>)
    ensures |codes| == |items|
    ensures forall i :: 0 <= i < |items| ==> codes[i] == items[i].code
  {
    seq(|items|, i requires 0 <= i < |items| => items[i].code)
  }

  /** No two lines of a request name the same type. */
  predicate DistinctCodes(lines: seq<RequestLine>)
  {
    forall i, j :: 0 <= i < j < |lines| ==> lines[i].code != lines[j].code
  }

  /** The quantity that lines of one type code ask for, summed. */
  function QuantityOf(lines: seq<RequestLine>, code: string): int
  {
    if |lines| == 0 then 0
    else (QuantityOf(lines[..|lines| - 1], code) +
      (if lines[|lines| - 1].code == code then lines[|lines| - 1].quantity else 0))
  }
}
