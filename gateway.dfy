/** The payment gateway as the controllers see it: order creation
    (`razorpay.orders.create`) and the HMAC-SHA256 callback signature. Both
    are external: the gateway is a function from the order request to the
    order id it returns (None when the call fails), and the signer is the
    server's keyed HMAC over a text, taken as an uninterpreted function. */
module Gateway {
  import opened Models

  /** `notes` of the order created by the payment controller. */
  datatype OrderNotes = OrderNotes(eventTitle: string, eventDate: string, ticketTypes: string)

  /** The options object passed to `razorpay.orders.create`. */
  datatype OrderRequest = OrderRequest(amount: int, currency: string, receipt: TicketId, notes: Option<OrderNotes>)

  /** What both order-creation endpoints answer on success
      (the public key id is configuration and is left out). */
  datatype OrderReply = OrderReply(orderId: string, amount: int, currency: string)

  type OrderGateway = OrderRequest -> Option<string>

  /** HMAC-SHA256 under the server-held secret, hex-encoded. */
  type Signer = string -> string

  const Currency: string := "INR"

  /** Rupees to paise, the gateway's minor unit (`totalAmount * 100`). */
  function MinorUnits(rupees: int): (paise: int)
    ensures paise / 100 == rupees && paise % 100 == 0
  {
    rupees * 100
  }

  /** The text the gateway signs: `order_id + "|" + payment_id`. */
  function SignedBody(orderId: string, paymentId: string): (body: string)
    ensures |body| == |orderId| + 1 + |paymentId|
    ensures body[..|orderId|] == orderId && body[|orderId|] == '|' && body[|orderId| + 1..] == paymentId
  {
    orderId + "|" + paymentId
  }

  /** The callback is authentic when the recomputed signature equals the
      one supplied (plain string equality, as in the source). */
  predicate Authentic(sign: Signer, orderId: string, paymentId: string, signature: string)
  {
    sign(SignedBody(orderId, paymentId)) == signature
  }
}
