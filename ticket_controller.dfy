/** Backend/controllers/ticketController.js: booking, compensating
    rollback, order creation and the payment-status transitions of a
    booking. Each handler is a method over the shared store; the pure
    functions before them say what the handlers compute. */
module TicketController {
  import opened Models
  import opened Seats
  import opened Database
  import opened Gateway

  // ---------------------------------------------------------------------
  // The availability check (ticketController.js:52-69)

  /** One request line against the ticket types: its type must exist for
      the event (404) and have at least the requested capacity (400). */
  function CheckLine(types: seq<TicketType>, eventId: EventId, line: RequestLine): Option<Failure>
  {
    match FindTypeIndex(types, eventId, line.code)
    case None => Some(NotFound)
    case Some(i) => if types[i].availableQuantity < line.quantity then Some(BadRequest) else None
  }

  /** The failure of the first failing line, in request order. */
  function CheckLines(types: seq<TicketType>, eventId: EventId, lines: seq<RequestLine>): Option<Failure>
  {
    if |lines| == 0 then None
    else
      var prev := CheckLines(types, eventId, lines[..|lines| - 1]);
      if prev.Some? then prev else CheckLine(types, eventId, lines[|lines| - 1])
  }

  /** A request passes the check exactly when every line passes. */
  lemma {:induction false} CheckLinesNoneIff(types: seq<TicketType>, eventId: EventId, lines: seq<RequestLine>)
    ensures CheckLines(types, eventId, lines) == None <==>
      forall k :: 0 <= k < |lines| ==> CheckLine(types, eventId, lines[k]) == None
  {
    if |lines| > 0 {
      var init := lines[..|lines| - 1];
      CheckLinesNoneIff(types, eventId, init);
      assert forall k :: 0 <= k < |init| ==> init[k] == lines[k];
    }
  }

  /** When the lines before `k` pass and line `k` fails, the request fails
      with line `k`'s failure: the check stops at the first failure. */
  lemma {:induction false} CheckLinesFirst(types: seq<TicketType>, eventId: EventId, lines: seq<RequestLine>, k: nat)
    requires k < |lines|
    requires CheckLines(types, eventId, lines[..k]) == None
    requires CheckLine(types, eventId, lines[k]).Some?
    ensures CheckLines(types, eventId, lines) == CheckLine(types, eventId, lines[k])
    decreases |lines|
  {
    if k < |lines| - 1 {
      var init := lines[..|lines| - 1];
      assert init[..k] == lines[..k];
      CheckLinesFirst(types, eventId, init, k);
    } else {
      assert lines[..|lines| - 1] == lines[..k];
    }
  }

  // ---------------------------------------------------------------------
  // Capacity bookkeeping

  /** Ticket types after each line, in order, has taken its quantity from
      the type (eventId, line.type) (ticketController.js:85-87). */
  function Debited(types: seq<TicketType>, eventId: EventId, lines: seq<RequestLine>): seq<TicketType>
  {
    if |lines| == 0 then types
    else
      var n := |lines| - 1;
      AdjustCapacity(Debited(types, eventId, lines[..n]), eventId, lines[n].code, -lines[n].quantity)
  }

  /** Ticket types after each line has given its quantity back
      (ticketController.js:128-138); a type that no longer exists is skipped. */
  function Credited(types: seq<TicketType>, eventId: EventId, lines: seq<RequestLine>): seq<TicketType>
  {
    if |lines| == 0 then types
    else
      var n := |lines| - 1;
      AdjustCapacity(Credited(types, eventId, lines[..n]), eventId, lines[n].code, lines[n].quantity)
  }

  /** Each ticket type of the event drops by the summed quantity of the
      lines naming it; nothing else changes. */
  lemma {:induction false} DebitedPointwise(types: seq<TicketType>, eventId: EventId, lines: seq<RequestLine>)
    ensures |Debited(types, eventId, lines)| == |types|
    ensures forall i :: 0 <= i < |types| ==>
      (Debited(types, eventId, lines)[i] ==
       types[i].(availableQuantity := types[i].availableQuantity -
         (if types[i].eventId == eventId then QuantityOf(lines, types[i].code) else 0)))
  {
    if |lines| > 0 {
      DebitedPointwise(types, eventId, lines[..|lines| - 1]);
    }
  }

  /** Each ticket type of the event rises by the summed quantity of the
      lines naming it; nothing else changes. */
  lemma {:induction false} CreditedPointwise(types: seq<TicketType>, eventId: EventId, lines: seq<RequestLine>)
    ensures |Credited(types, eventId, lines)| == |types|
    ensures forall i :: 0 <= i < |types| ==>
      (Credited(types, eventId, lines)[i] ==
       types[i].(availableQuantity := types[i].availableQuantity +
         (if types[i].eventId == eventId then QuantityOf(lines, types[i].code) else 0)))
  {
    if |lines| > 0 {
      CreditedPointwise(types, eventId, lines[..|lines| - 1]);
    }
  }

  /** Giving back what was taken restores every capacity exactly. */
  lemma CreditUndoesDebit(types: seq<TicketType>, eventId: EventId, lines: seq<RequestLine>)
    ensures Credited(Debited(types, eventId, lines), eventId, lines) == types
  {
    var d := Debited(types, eventId, lines);
    DebitedPointwise(types, eventId, lines);
    CreditedPointwise(d, eventId, lines);
  }

  lemma {:induction false} QuantityOfAbsent(lines: seq<RequestLine>, code: string)
    requires forall k :: 0 <= k < |lines| ==> lines[k].code != code
    ensures QuantityOf(lines, code) == 0
  {
    if |lines| > 0 {
      QuantityOfAbsent(lines[..|lines| - 1], code);
    }
  }

  lemma {:induction false} QuantityOfSingle(lines: seq<RequestLine>, code: string, k: nat)
    requires DistinctCodes(lines)
    requires k < |lines| && lines[k].code == code
    ensures QuantityOf(lines, code) == lines[k].quantity
  {
    var n := |lines| - 1;
    var init := lines[..n];
    if k < n {
      QuantityOfSingle(init, code, k);
    } else {
      QuantityOfAbsent(init, code);
    }
  }

  lemma {:induction false} QuantityOfNonNegative(lines: seq<RequestLine>, code: string)
    requires forall k :: 0 <= k < |lines| ==> lines[k].quantity >= 0
    ensures QuantityOf(lines, code) >= 0
  {
    if |lines| > 0 {
      QuantityOfNonNegative(lines[..|lines| - 1], code);
    }
  }

  predicate QuantitiesNonNegative(lines: seq<RequestLine>)
  {
    forall k :: 0 <= k < |lines| ==> lines[k].quantity >= 0
  }

  /** A request with distinct types that passed the check leaves every
      capacity non-negative. */
  lemma DebitKeepsCapacities(types: seq<TicketType>, eventId: EventId, lines: seq<RequestLine>)
    requires UniqueTypeKeys(types) && CapacitiesNonNegative(types)
    requires DistinctCodes(lines)
    requires CheckLines(types, eventId, lines) == None
    ensures CapacitiesNonNegative(Debited(types, eventId, lines))
  {
    DebitedPointwise(types, eventId, lines);
    CheckLinesNoneIff(types, eventId, lines);
    forall i | 0 <= i < |types| && types[i].eventId == eventId
      ensures types[i].availableQuantity >= QuantityOf(lines, types[i].code)
    {
      var code := types[i].code;
      if k :| 0 <= k < |lines| && lines[k].code == code {
        QuantityOfSingle(lines, code, k);
        assert CheckLine(types, eventId, lines[k]) == None;
        var j := FindTypeIndex(types, eventId, code).value;
        assert TypeKeys(types)[i] == TypeKeys(types)[j];
      } else {
        QuantityOfAbsent(lines, code);
      }
    }
  }

  /** Giving back non-negative quantities keeps capacities non-negative. */
  lemma CreditKeepsCapacities(types: seq<TicketType>, eventId: EventId, lines: seq<RequestLine>)
    requires CapacitiesNonNegative(types)
    requires QuantitiesNonNegative(lines)
    ensures CapacitiesNonNegative(Credited(types, eventId, lines))
  {
    CreditedPointwise(types, eventId, lines);
    forall i | 0 <= i < |types|
      ensures QuantityOf(lines, types[i].code) >= 0
    {
      QuantityOfNonNegative(lines, types[i].code);
    }
  }

  // ---------------------------------------------------------------------
  // The booking record (ticketController.js:72-101)

  /** The stored line items: each request line as the client sent it
      (`...ticket`), plus the labels minted against the bookings already
      stored for the event. */
  function BookedItems(tickets: seq<Ticket>, eventId: EventId, lines: seq<RequestLine>): (items: seq<LineItem>)
    ensures |items| == |lines|
    ensures forall k :: 0 <= k < |lines| ==>
      items[k] == LineItem(lines[k].code, lines[k].quantity, lines[k].price,
                           SeatNumbers(ExistingSeats(tickets, eventId, lines[k].code), lines[k].code, lines[k].quantity))
  {
    seq(|lines|, k requires 0 <= k < |lines| =>
      LineItem(lines[k].code, lines[k].quantity, lines[k].price,
               SeatNumbers(ExistingSeats(tickets, eventId, lines[k].code), lines[k].code, lines[k].quantity)))
  }

  lemma BookedItemsSnoc(tickets: seq<Ticket>, eventId: EventId, lines: seq<RequestLine>, k: nat)
    requires k < |lines|
    ensures BookedItems(tickets, eventId, lines[..k + 1]) ==
      BookedItems(tickets, eventId, lines[..k]) +
      [LineItem(lines[k].code, lines[k].quantity, lines[k].price,
                SeatNumbers(ExistingSeats(tickets, eventId, lines[k].code), lines[k].code, lines[k].quantity))]
  {
    var a := BookedItems(tickets, eventId, lines[..k + 1]);
    var b := BookedItems(tickets, eventId, lines[..k]);
    assert a[..k] == b;
  }

  lemma DebitedSnoc(types: seq<TicketType>, eventId: EventId, lines: seq<RequestLine>, k: nat)
    requires k < |lines|
    ensures Debited(types, eventId, lines[..k + 1]) ==
      AdjustCapacity(Debited(types, eventId, lines[..k]), eventId, lines[k].code, -lines[k].quantity)
  {
    assert lines[..k + 1][..k] == lines[..k];
  }

  lemma CreditedSnoc(types: seq<TicketType>, eventId: EventId, lines: seq<RequestLine>, k: nat)
    requires k < |lines|
    ensures Credited(types, eventId, lines[..k + 1]) ==
      AdjustCapacity(Credited(types, eventId, lines[..k]), eventId, lines[k].code, lines[k].quantity)
  {
    assert lines[..k + 1][..k] == lines[..k];
  }

  /** The request lines a booking's items stand for (seat labels dropped). */
  function LinesOf(items: seq<LineItem>): (lines: seq<RequestLine>)
    ensures |lines| == |items|
    ensures forall k :: 0 <= k < |items| ==>
      lines[k] == RequestLine(items[k].code, items[k].quantity, items[k].price)
  {
    seq(|items|, k requires 0 <= k < |items| => RequestLine(items[k].code, items[k].quantity, items[k].price))
  }

  /** The booking `Ticket.create` stores for a request. */
  function NewBooking(id: TicketId, userId: string, eventId: EventId, lines: seq<RequestLine>,
                      totalAmount: int, tickets: seq<Ticket>, now: nat): Ticket
  {
    Ticket(id, userId, eventId, BookedItems(tickets, eventId, lines), totalAmount, now, None, None, None, None)
  }

  /** The schema's required strings (Ticket.js:4-7, 14-17): an empty
      userId or line type fails validation when the booking is stored. */
  predicate RequiredFieldsPresent(userId: string, lines: seq<RequestLine>)
  {
    userId != "" && forall k :: 0 <= k < |lines| ==> lines[k].code != ""
  }

  /** A stored booking's lines are the request lines it was made from, so
      its total quantity is the request's. */
  lemma {:induction false} BookedQuantity(tickets: seq<Ticket>, eventId: EventId, lines: seq<RequestLine>)
    ensures LinesOf(BookedItems(tickets, eventId, lines)) == lines
    ensures ItemQuantity(BookedItems(tickets, eventId, lines)) == RequestQuantity(lines)
  {
    var items := BookedItems(tickets, eventId, lines);
    if |lines| > 0 {
      var n := |lines| - 1;
      BookedQuantity(tickets, eventId, lines[..n]);
      assert items[..n] == BookedItems(tickets, eventId, lines[..n]);
    }
  }

  lemma NoDupAppend(a: seq<string>, b: seq<string>)
    requires NoDup(a) && NoDup(b)
    requires forall x :: x in b ==> x !in a
    ensures NoDup(a + b)
  {
    forall i, j | 0 <= i < j < |a + b|
      ensures (a + b)[i] != (a + b)[j]
    {
      if i < |a| && j >= |a| {
        assert (a + b)[j] in b;
      }
    }
  }

  lemma {:induction false} CodeSeatsAbsent(items: seq<LineItem>, code: string)
    requires forall k :: 0 <= k < |items| ==> items[k].code != code
    ensures CodeSeats(items, code) == []
  {
    if |items| > 0 {
      CodeSeatsAbsent(items[..|items| - 1], code);
    }
  }

  lemma {:induction false} CodeSeatsSingle(items: seq<LineItem>, code: string, k: nat)
    requires forall i, j :: 0 <= i < j < |items| ==> items[i].code != items[j].code
    requires k < |items| && items[k].code == code
    ensures CodeSeats(items, code) == items[k].seatNumbers
  {
    var n := |items| - 1;
    var init := items[..n];
    if k < n {
      CodeSeatsSingle(init, code, k);
    } else {
      CodeSeatsAbsent(init, code);
    }
  }

  lemma ExistingSeatsOne(t: Ticket, eventId: EventId, code: string)
    ensures ExistingSeats([t], eventId, code) == if t.eventId == eventId then CodeSeats(t.items, code) else []
  {
    assert [t][..0] == [];
  }

  /** Storing a booking of distinct types keeps seat labels unique per
      (event, type), since each line's labels avoid those already issued. */
  lemma BookingKeepsSeatsUnique(tickets: seq<Ticket>, eventId: EventId, lines: seq<RequestLine>, b: Ticket)
    requires SeatsUnique(tickets)
    requires DistinctCodes(lines)
    requires b.eventId == eventId && b.items == BookedItems(tickets, eventId, lines)
    ensures SeatsUnique(tickets + [b])
  {
    forall e, c
      ensures NoDup(ExistingSeats(tickets + [b], e, c))
    {
      ExistingSeatsAppend(tickets, [b], e, c);
      ExistingSeatsOne(b, e, c);
      var old_ := ExistingSeats(tickets, e, c);
      assert NoDup(old_);
      if e == eventId {
        if k :| 0 <= k < |lines| && lines[k].code == c {
          CodeSeatsSingle(b.items, c, k);
          SeatNumbersSpec(old_, c, lines[k].quantity);
          NoDupAppend(old_, b.items[k].seatNumbers);
        } else {
          CodeSeatsAbsent(b.items, c);
          assert old_ + [] == old_;
        }
      } else {
        assert old_ + [] == old_;
      }
    }
  }

  /** Deleting a booking keeps seat labels unique. */
  lemma RemoveKeepsSeatsUnique(tickets: seq<Ticket>, i: nat)
    requires SeatsUnique(tickets) && i < |tickets|
    ensures SeatsUnique(tickets[..i] + tickets[i + 1..])
  {
    var pre, mid, post := tickets[..i], [tickets[i]], tickets[i + 1..];
    assert tickets == pre + mid + post;
    forall e, c
      ensures NoDup(ExistingSeats(pre + post, e, c))
    {
      ExistingSeatsAppend(pre + mid, post, e, c);
      ExistingSeatsAppend(pre, mid, e, c);
      ExistingSeatsAppend(pre, post, e, c);
      var a, m, z := ExistingSeats(pre, e, c), ExistingSeats(mid, e, c), ExistingSeats(post, e, c);
      assert NoDup(a + m + z);
      forall x, y | 0 <= x < y < |a + z|
        ensures (a + z)[x] != (a + z)[y]
      {
        var x', y' := if x < |a| then x else x + |m|, if y < |a| then y else y + |m|;
        assert (a + z)[x] == (a + m + z)[x'];
        assert (a + z)[y] == (a + m + z)[y'];
      }
    }
  }

  /** Rewriting a booking's payment fields leaves the issued seats alone. */
  lemma ReplaceKeepsSeats(tickets: seq<Ticket>, i: nat, t: Ticket)
    requires i < |tickets| && t.eventId == tickets[i].eventId && t.items == tickets[i].items
    ensures forall e, c :: ExistingSeats(tickets[i := t], e, c) == ExistingSeats(tickets, e, c)
  {
    var pre, post := tickets[..i], tickets[i + 1..];
    assert tickets == pre + [tickets[i]] + post;
    assert tickets[i := t] == pre + [t] + post;
    forall e, c
      ensures ExistingSeats(tickets[i := t], e, c) == ExistingSeats(tickets, e, c)
    {
      ExistingSeatsAppend(pre + [t], post, e, c);
      ExistingSeatsAppend(pre, [t], e, c);
      ExistingSeatsAppend(pre + [tickets[i]], post, e, c);
      ExistingSeatsAppend(pre, [tickets[i]], e, c);
      ExistingSeatsOne(t, e, c);
      ExistingSeatsOne(tickets[i], e, c);
    }
  }

  /** Rewriting a booking's payment fields keeps the inventory invariants. */
  lemma ReplaceKeepsInventory(types: seq<TicketType>, tickets: seq<Ticket>, i: nat, t: Ticket)
    requires i < |tickets| && t.eventId == tickets[i].eventId && t.items == tickets[i].items
    requires Inventory(types, tickets)
    ensures Inventory(types, tickets[i := t])
  {
    ReplaceKeepsSeats(tickets, i, t);
    var updated := tickets[i := t];
    forall e, c
      ensures NoDup(ExistingSeats(updated, e, c))
    {
      assert NoDup(ExistingSeats(tickets, e, c));
    }
  }


  /** Rolling a booking back returns every ticket type's capacity to its
      value before the booking. */
  lemma RollbackRestoresTypes(types: seq<TicketType>, tickets: seq<Ticket>,
                              eventId: EventId, lines: seq<RequestLine>, b: Ticket)
    requires b.eventId == eventId && b.items == BookedItems(tickets, eventId, lines)
    ensures Credited(Debited(types, eventId, lines), b.eventId, LinesOf(b.items)) == types
  {
    BookedQuantity(tickets, eventId, lines);
    CreditUndoesDebit(types, eventId, lines);
  }

  /** Rolling a booking back returns the event's seat count to its value
      before the booking. */
  lemma RollbackRestoresSeats(events: map<EventId, Event>, tickets: seq<Ticket>,
                              eventId: EventId, lines: seq<RequestLine>, b: Ticket)
    requires b.eventId == eventId && b.items == BookedItems(tickets, eventId, lines)
    ensures ShiftSeats(ShiftSeats(events, eventId, -RequestQuantity(lines)), b.eventId, ItemQuantity(b.items)) == events
  {
    BookedQuantity(tickets, eventId, lines);
    ShiftSeatsInverse(events, eventId, -RequestQuantity(lines));
  }

  // ---------------------------------------------------------------------
  // Handlers
  /** The availability loop of `createTicket` (ticketController.js:52-69):
      stops at the first line whose type is missing (404) or short of
      capacity (400); reads the store and changes nothing. */
  method CheckRequest(db: Store, eventId: EventId, lines: seq<RequestLine>) returns (failure: Option<Failure>)
    ensures failure == CheckLines(db.ticketTypes, eventId, lines)
  {
    var k := 0;
    while k < |lines|
      invariant 0 <= k <= |lines|
      invariant CheckLines(db.ticketTypes, eventId, lines[..k]) == None
    {
      var line := lines[k];
      var idx := FindTypeIndex(db.ticketTypes, eventId, line.code);
      if idx.None? {
        CheckLinesFirst(db.ticketTypes, eventId, lines, k);
        return Some(NotFound);
      }
      if db.ticketTypes[idx.value].availableQuantity < line.quantity {
        CheckLinesFirst(db.ticketTypes, eventId, lines, k);
        return Some(BadRequest);
      }
      assert lines[..k + 1][..k] == lines[..k];
      k := k + 1;
    }
    assert lines[..k] == lines;
    return None;
  }

  /** The `Promise.all` of `createTicket` (ticketController.js:72-93): for
      each line, mint its seat labels against the stored bookings and take
      its quantity from its ticket type. */
  method ReserveLines(db: Store, eventId: EventId, lines: seq<RequestLine>) returns (items: seq<LineItem>)
    requires db.Valid()
    modifies db`ticketTypes
    ensures db.Valid()
    ensures db.ticketTypes == Debited(old(db.ticketTypes), eventId, lines)
    ensures items == BookedItems(db.tickets, eventId, lines)
  {
    items := [];
    var k := 0;
    while k < |lines|
      invariant 0 <= k <= |lines|
      invariant db.Valid()
      invariant db.ticketTypes == Debited(old(db.ticketTypes), eventId, lines[..k])
      invariant items == BookedItems(db.tickets, eventId, lines[..k])
    {
      var line := lines[k];
      var existing := ExistingSeats(db.tickets, eventId, line.code);
      var seats := GenerateSeatNumbers(existing, line.code, line.quantity);
      var found := db.AdjustTypeCapacity(eventId, line.code, -line.quantity);
      BookedItemsSnoc(db.tickets, eventId, lines, k);
      DebitedSnoc(old(db.ticketTypes), eventId, lines, k);
      items := items + [LineItem(line.code, line.quantity, line.price, seats)];
      k := k + 1;
    }
    assert lines[..k] == lines;
  }

  /** The crediting loop of `rollbackTicketBooking`
      (ticketController.js:128-138): each line item gives its quantity back
      to its ticket type; a type that no longer exists is skipped. */
  method ReleaseItems(db: Store, eventId: EventId, items: seq<LineItem>)
    requires db.Valid()
    modifies db`ticketTypes
    ensures db.Valid()
    ensures db.ticketTypes == Credited(old(db.ticketTypes), eventId, LinesOf(items))
  {
    ghost var lines := LinesOf(items);
    var k := 0;
    while k < |items|
      invariant 0 <= k <= |items|
      invariant db.Valid()
      invariant db.ticketTypes == Credited(old(db.ticketTypes), eventId, lines[..k])
    {
      var item := items[k];
      var found := db.AdjustTypeCapacity(eventId, item.code, item.quantity);
      CreditedSnoc(old(db.ticketTypes), eventId, lines, k);
      k := k + 1;
    }
    assert lines[..k] == lines;
  }

  /** Storing a booking of non-negative quantities keeps every booked
      quantity non-negative. */
  lemma BookingKeepsQuantities(tickets: seq<Ticket>, eventId: EventId, lines: seq<RequestLine>, b: Ticket)
    requires BookedQuantitiesNonNegative(tickets)
    requires QuantitiesNonNegative(lines)
    requires b.items == BookedItems(tickets, eventId, lines)
    ensures BookedQuantitiesNonNegative(tickets + [b])
  {
    var all := tickets + [b];
    forall i, j | 0 <= i < |all| && 0 <= j < |all[i].items|
      ensures all[i].items[j].quantity >= 0
    {
      if i < |tickets| {
        assert all[i] == tickets[i];
      }
    }
  }

  /** Taking a checked request's capacities keeps the inventory invariants. */
  lemma DebitKeepsInventory(types: seq<TicketType>, tickets: seq<Ticket>, eventId: EventId, lines: seq<RequestLine>)
    requires Inventory(types, tickets) && UniqueTypeKeys(types)
    requires DistinctCodes(lines) && CheckLines(types, eventId, lines) == None
    ensures Inventory(Debited(types, eventId, lines), tickets)
  {
    DebitKeepsCapacities(types, eventId, lines);
  }

  /** Booking a checked request of distinct types and non-negative
      quantities keeps the inventory invariants. */
  lemma BookingKeepsInventory(types: seq<TicketType>, tickets: seq<Ticket>, eventId: EventId,
                              lines: seq<RequestLine>, b: Ticket)
    requires Inventory(types, tickets) && UniqueTypeKeys(types)
    requires DistinctCodes(lines) && QuantitiesNonNegative(lines) && CheckLines(types, eventId, lines) == None
    requires b.eventId == eventId && b.items == BookedItems(tickets, eventId, lines)
    ensures Inventory(Debited(types, eventId, lines), tickets + [b])
  {
    DebitKeepsCapacities(types, eventId, lines);
    BookingKeepsSeatsUnique(tickets, eventId, lines, b);
    BookingKeepsQuantities(tickets, eventId, lines, b);
  }

  /** The insert of a validated booking and the drop of the event's seat
      count by the quantity booked. */
  method StoreBooking(db: Store, userId: string, eventId: EventId, lines: seq<RequestLine>, items: seq<LineItem>, totalAmount: int)
    returns (ticket: Ticket)
    requires db.Valid()
    requires items == BookedItems(db.tickets, eventId, lines)
    modifies db`tickets, db`nextId, db`clock, db`events
    ensures db.Valid()
    ensures ticket == NewBooking(old(db.nextId), userId, eventId, lines, totalAmount, old(db.tickets), old(db.clock))
    ensures db.tickets == old(db.tickets) + [ticket]
    ensures db.events == ShiftSeats(old(db.events), eventId, -RequestQuantity(lines))
    ensures db.nextId == old(db.nextId) + 1 && db.clock == old(db.clock) + 1
  {
    ticket := Ticket(db.nextId, userId, eventId, items, totalAmount, db.clock, None, None, None, None);
    db.InsertTicket(ticket);
    db.ShiftEventSeats(eventId, -RequestQuantity(lines));
  }

  /** `createTicket` past its availability check
      (ticketController.js:72-105): seats are minted and capacities taken
      line by line before `Ticket.create` validates the booking, so a
      booking that fails validation (400) leaves the capacities taken. */
  method BookChecked(db: Store, userId: string, eventId: EventId, lines: seq<RequestLine>, totalAmount: int)
    returns (r: Reply<Ticket>)
    requires db.Valid()
    requires eventId in db.events
    requires CheckLines(db.ticketTypes, eventId, lines) == None
    modifies db
    ensures db.Valid()
    ensures db.ticketTypes == Debited(old(db.ticketTypes), eventId, lines)
    ensures db.payments == old(db.payments)
    ensures RequiredFieldsPresent(userId, lines) ==>
      && r == Ok(NewBooking(old(db.nextId), userId, eventId, lines, totalAmount, old(db.tickets), old(db.clock)))
      && db.tickets == old(db.tickets) + [r.value]
      && db.events == ShiftSeats(old(db.events), eventId, -RequestQuantity(lines))
      && db.nextId == old(db.nextId) + 1 && db.clock == old(db.clock) + 1
    ensures !RequiredFieldsPresent(userId, lines) ==>
      && r == Err(BadRequest)
      && db.tickets == old(db.tickets) && db.events == old(db.events)
      && db.nextId == old(db.nextId) && db.clock == old(db.clock)
  {
    var items := ReserveLines(db, eventId, lines);
    // Ticket.create: schema validation, then the insert
    if !RequiredFieldsPresent(userId, lines) {
      return Err(BadRequest);
    }
    var ticket := StoreBooking(db, userId, eventId, lines, items, totalAmount);
    r := Ok(ticket);
  }

  /** `createTicket` (ticketController.js:41-115): 404 for a missing
      event, then the availability check, then the booking. */
  method CreateTicket(db: Store, userId: string, eventId: EventId, lines: seq<RequestLine>, totalAmount: int)
    returns (r: Reply<Ticket>)
    requires db.Valid()
    modifies db
    ensures db.Valid()
    ensures eventId !in old(db.events) ==> r == Err(NotFound) && unchanged(db)
    ensures eventId in old(db.events) && CheckLines(old(db.ticketTypes), eventId, lines).Some? ==>
      r == Err(CheckLines(old(db.ticketTypes), eventId, lines).value) && unchanged(db)
    ensures eventId in old(db.events) && CheckLines(old(db.ticketTypes), eventId, lines) == None ==>
      && db.ticketTypes == Debited(old(db.ticketTypes), eventId, lines)
      && db.payments == old(db.payments)
      && (RequiredFieldsPresent(userId, lines) ==>
            && r == Ok(NewBooking(old(db.nextId), userId, eventId, lines, totalAmount, old(db.tickets), old(db.clock)))
            && db.tickets == old(db.tickets) + [r.value]
            && db.events == ShiftSeats(old(db.events), eventId, -RequestQuantity(lines))
            && db.nextId == old(db.nextId) + 1 && db.clock == old(db.clock) + 1)
      && (!RequiredFieldsPresent(userId, lines) ==>
            && r == Err(BadRequest)
            && db.tickets == old(db.tickets) && db.events == old(db.events)
            && db.nextId == old(db.nextId) && db.clock == old(db.clock))
    ensures old(db.Consistent()) && DistinctCodes(lines) && QuantitiesNonNegative(lines) ==> db.Consistent()
  {
    if eventId !in db.events {
      return Err(NotFound);
    }
    var failure := CheckRequest(db, eventId, lines);
    if failure.Some? {
      return Err(failure.value);
    }
    ghost var types0, tickets0 := db.ticketTypes, db.tickets;
    r := BookChecked(db, userId, eventId, lines, totalAmount);
    if Inventory(types0, tickets0) && DistinctCodes(lines) && QuantitiesNonNegative(lines) {
      if r.Ok? {
        BookingKeepsInventory(types0, tickets0, eventId, lines, r.value);
      } else {
        DebitKeepsInventory(types0, tickets0, eventId, lines);
      }
    }
  }

  /** `rollbackTicketBooking` (ticketController.js:118-155): 404 for a
      missing booking; otherwise every line's quantity goes back to its
      ticket type and the total back to the event (each only if it still
      exists) and the booking is deleted. */
  method RollbackTicketBooking(db: Store, ticketId: TicketId) returns (r: Reply<()>)
    requires db.Valid()
    modifies db
    ensures db.Valid()
    ensures FindTicket(old(db.tickets), ticketId).None? ==> r == Err(NotFound) && unchanged(db)
    ensures FindTicket(old(db.tickets), ticketId).Some? ==>
      var i := FindTicket(old(db.tickets), ticketId).value;
      var t := old(db.tickets)[i];
      && r == Ok(())
      && db.ticketTypes == Credited(old(db.ticketTypes), t.eventId, LinesOf(t.items))
      && db.events == ShiftSeats(old(db.events), t.eventId, ItemQuantity(t.items))
      && db.tickets == old(db.tickets)[..i] + old(db.tickets)[i + 1..]
      && db.payments == old(db.payments) && db.nextId == old(db.nextId) && db.clock == old(db.clock)
    ensures old(db.Consistent()) ==> db.Consistent()
  {
    var idx := FindTicket(db.tickets, ticketId);
    if idx.None? {
      return Err(NotFound);
    }
    var i := idx.value;
    var t := db.tickets[i];
    if Inventory(db.ticketTypes, db.tickets) {
      RemoveKeepsInventory(db.ticketTypes, db.tickets, i);
    }
    ReleaseItems(db, t.eventId, t.items);
    db.ShiftEventSeats(t.eventId, ItemQuantity(t.items));
    db.DeleteTicket(i);
    r := Ok(());
  }

  /** An id not yet handed out names no booking. */
  lemma UnissuedIdNotFound(tickets: seq<Ticket>, id: TicketId)
    requires AllBelow(TicketIds(tickets), id)
    ensures FindTicket(tickets, id).None?
  {
  }

  /** The booking just appended under a fresh id is the one found by that
      id, and deleting it gives back the earlier bookings. */
  lemma AppendedFoundLast(tickets: seq<Ticket>, b: Ticket)
    requires AllBelow(TicketIds(tickets), b.id)
    ensures FindTicket(tickets + [b], b.id) == Some(|tickets|)
    ensures (tickets + [b])[..|tickets|] + (tickets + [b])[|tickets| + 1..] == tickets
  {
    var all := tickets + [b];
    UnissuedIdNotFound(tickets, b.id);
    assert forall k :: 0 <= k < |tickets| ==> all[k] == tickets[k];
    assert all[|tickets|] == b;
    assert all[..|tickets|] == tickets;
  }

  /** A booking rolled back straight away (the client's cancel path,
      ticketController.js:41-155) leaves the capacities, the seat counts and
      the bookings as they were, and a second rollback of the same id finds
      nothing. */
  method BookThenRollback(db: Store, userId: string, eventId: EventId, lines: seq<RequestLine>, totalAmount: int)
    returns (booked: Reply<Ticket>, first: Reply<()>, second: Reply<()>)
    requires db.Valid()
    modifies db
    ensures db.Valid()
    ensures booked.Ok? ==>
      && first == Ok(()) && second == Err(NotFound)
      && db.ticketTypes == old(db.ticketTypes) && db.events == old(db.events) && db.tickets == old(db.tickets)
    ensures booked.Err? ==> first == Err(NotFound) && second == Err(NotFound)
  {
    ghost var types0, events0, tickets0 := db.ticketTypes, db.events, db.tickets;
    var id := db.nextId;
    booked := CreateTicket(db, userId, eventId, lines, totalAmount);
    if booked.Ok? {
      AppendedFoundLast(tickets0, booked.value);
      RollbackRestoresTypes(types0, tickets0, eventId, lines, booked.value);
      RollbackRestoresSeats(events0, tickets0, eventId, lines, booked.value);
    } else {
      UnissuedIdNotFound(db.tickets, id);
    }
    first := RollbackTicketBooking(db, id);
    UnissuedIdNotFound(db.tickets, id);
    second := RollbackTicketBooking(db, id);
  }

  /** Rolling back the booking at index `i` keeps the inventory invariants. */
  lemma RemoveKeepsInventory(types: seq<TicketType>, tickets: seq<Ticket>, i: nat)
    requires Inventory(types, tickets) && i < |tickets|
    ensures Inventory(Credited(types, tickets[i].eventId, LinesOf(tickets[i].items)), tickets[..i] + tickets[i + 1..])
  {
    ItemsKeepQuantities(tickets, i);
    CreditKeepsCapacities(types, tickets[i].eventId, LinesOf(tickets[i].items));
    RemoveKeepsSeatsUnique(tickets, i);
    RemoveKeepsQuantities(tickets, i);
  }

  /** The lines of a stored booking have non-negative quantities. */
  lemma ItemsKeepQuantities(tickets: seq<Ticket>, i: nat)
    requires BookedQuantitiesNonNegative(tickets) && i < |tickets|
    ensures QuantitiesNonNegative(LinesOf(tickets[i].items))
  {
  }

  /** Deleting a booking keeps every booked quantity non-negative. */
  lemma RemoveKeepsQuantities(tickets: seq<Ticket>, i: nat)
    requires BookedQuantitiesNonNegative(tickets) && i < |tickets|
    ensures BookedQuantitiesNonNegative(tickets[..i] + tickets[i + 1..])
  {
    var rest := tickets[..i] + tickets[i + 1..];
    forall a, b | 0 <= a < |rest| && 0 <= b < |rest[a].items|
      ensures rest[a].items[b].quantity >= 0
    {
      assert rest[a] == tickets[if a < i then a else a + 1];
    }
  }

  /** `updatePaymentStatus` (ticketController.js:186-214): writes the two
      payment fields; a `completed` status takes the booking's quantity
      from the event's seats once more. */
  method UpdatePaymentStatus(db: Store, ticketId: TicketId, paymentStatus: Option<string>, paymentId: Option<string>)
    returns (r: Reply<Ticket>)
    requires db.Valid()
    modifies db
    ensures db.Valid()
    ensures FindTicket(old(db.tickets), ticketId).None? ==> r == Err(NotFound) && unchanged(db)
    ensures FindTicket(old(db.tickets), ticketId).Some? ==>
      var i := FindTicket(old(db.tickets), ticketId).value;
      var t := old(db.tickets)[i];
      var t' := t.(paymentStatus := paymentStatus, paymentId := paymentId);
      && r == Ok(t')
      && db.tickets == old(db.tickets)[i := t']
      && db.events == (if paymentStatus == Some("completed")
                       then ShiftSeats(old(db.events), t.eventId, -ItemQuantity(t.items))
                       else old(db.events))
      && db.ticketTypes == old(db.ticketTypes) && db.payments == old(db.payments)
      && db.nextId == old(db.nextId) && db.clock == old(db.clock)
    ensures old(db.Consistent()) ==> db.Consistent()
  {
    var idx := FindTicket(db.tickets, ticketId);
    if idx.None? {
      return Err(NotFound);
    }
    var i := idx.value;
    var t := db.tickets[i];
    var t' := t.(paymentStatus := paymentStatus, paymentId := paymentId);
    if Inventory(db.ticketTypes, db.tickets) {
      ReplaceKeepsInventory(db.ticketTypes, db.tickets, i, t');
    }
    if paymentStatus == Some("completed") {
      db.ShiftEventSeats(t.eventId, -ItemQuantity(t.items));
    }
    db.ReplaceTicket(i, t');
    r := Ok(t');
  }

  /** `createOrder` (ticketController.js:218-246): asks the gateway for
      the booking's total in paise and records the order id on the booking;
      the reply carries the total in rupees. */
  method CreateOrder(db: Store, ticketId: TicketId, gateway: OrderGateway) returns (r: Reply<OrderReply>)
    requires db.Valid()
    modifies db
    ensures db.Valid()
    ensures FindTicket(old(db.tickets), ticketId).None? ==> r == Err(NotFound) && unchanged(db)
    ensures FindTicket(old(db.tickets), ticketId).Some? ==>
      var i := FindTicket(old(db.tickets), ticketId).value;
      var t := old(db.tickets)[i];
      match gateway(OrderRequest(MinorUnits(t.totalAmount), Currency, ticketId, None))
      case None => r == Err(ServerError) && unchanged(db)
      case Some(orderId) =>
        && r == Ok(OrderReply(orderId, t.totalAmount, Currency))
        && db.tickets == old(db.tickets)[i := t.(razorpayOrderId := Some(orderId))]
        && db.events == old(db.events) && db.ticketTypes == old(db.ticketTypes) && db.payments == old(db.payments)
        && db.nextId == old(db.nextId) && db.clock == old(db.clock)
    ensures old(db.Consistent()) ==> db.Consistent()
  {
    var idx := FindTicket(db.tickets, ticketId);
    if idx.None? {
      return Err(NotFound);
    }
    var i := idx.value;
    var t := db.tickets[i];
    var order := gateway(OrderRequest(MinorUnits(t.totalAmount), Currency, ticketId, None));
    if order.None? {
      return Err(ServerError);
    }
    var t' := t.(razorpayOrderId := Some(order.value));
    if Inventory(db.ticketTypes, db.tickets) {
      ReplaceKeepsInventory(db.ticketTypes, db.tickets, i, t');
    }
    db.ReplaceTicket(i, t');
    r := Ok(OrderReply(order.value, t.totalAmount, Currency));
  }

  /** `verifyPayment` (ticketController.js:249-284) as written: line 255
      calls `require`, which an ES module does not define, so the handler
      throws before reading or writing anything and answers 500 whatever
      the callback carries, an authentic signature included. */
  method VerifyPaymentAsWritten(db: Store, orderId: string, paymentId: string, signature: string, sign: Signer)
    returns (r: Reply<()>)
    ensures r == Err(ServerError)
  {
    r := Err(ServerError);
  }

  /** The authentic branch of `verifyPayment` (ticketController.js:263-277):
      the first booking carrying the order id, if any, is marked completed
      with the gateway's payment id and its quantity is taken from the
      event's seats once more. */
  method CompleteOrder(db: Store, orderId: string, paymentId: string)
    requires db.Valid()
    modifies db`tickets, db`events
    ensures db.Valid()
    ensures FindTicketByOrder(old(db.tickets), orderId).None? ==> db.tickets == old(db.tickets) && db.events == old(db.events)
    ensures FindTicketByOrder(old(db.tickets), orderId).Some? ==>
      var i := FindTicketByOrder(old(db.tickets), orderId).value;
      var t := old(db.tickets)[i];
      && db.tickets == old(db.tickets)[i := t.(paymentStatus := Some("completed"), razorpayPaymentId := Some(paymentId))]
      && db.events == ShiftSeats(old(db.events), t.eventId, -ItemQuantity(t.items))
    ensures Inventory(db.ticketTypes, old(db.tickets)) ==> Inventory(db.ticketTypes, db.tickets)
  {
    var idx := FindTicketByOrder(db.tickets, orderId);
    if idx.Some? {
      var i := idx.value;
      var t := db.tickets[i];
      var t' := t.(paymentStatus := Some("completed"), razorpayPaymentId := Some(paymentId));
      if Inventory(db.ticketTypes, db.tickets) {
        ReplaceKeepsInventory(db.ticketTypes, db.tickets, i, t');
      }
      db.ReplaceTicket(i, t');
      db.ShiftEventSeats(t.eventId, -ItemQuantity(t.items));
    }
  }

  /** `verifyPayment` (ticketController.js:249-284) as intended: an
      authentic callback completes the order (`CompleteOrder`) and answers
      success; a mismatch answers 400 and changes nothing. */
  method VerifyPayment(db: Store, orderId: string, paymentId: string, signature: string, sign: Signer)
    returns (r: Reply<()>)
    requires db.Valid()
    modifies db
    ensures db.Valid()
    ensures !Authentic(sign, orderId, paymentId, signature) ==> r == Err(BadRequest) && unchanged(db)
    ensures Authentic(sign, orderId, paymentId, signature) ==> r == Ok(())
    ensures Authentic(sign, orderId, paymentId, signature) && FindTicketByOrder(old(db.tickets), orderId).None? ==>
      unchanged(db)
    ensures Authentic(sign, orderId, paymentId, signature) && FindTicketByOrder(old(db.tickets), orderId).Some? ==>
      var i := FindTicketByOrder(old(db.tickets), orderId).value;
      var t := old(db.tickets)[i];
      && db.tickets == old(db.tickets)[i := t.(paymentStatus := Some("completed"), razorpayPaymentId := Some(paymentId))]
      && db.events == ShiftSeats(old(db.events), t.eventId, -ItemQuantity(t.items))
      && db.ticketTypes == old(db.ticketTypes) && db.payments == old(db.payments)
      && db.nextId == old(db.nextId) && db.clock == old(db.clock)
    ensures old(db.Consistent()) ==> db.Consistent()
  {
    if !Authentic(sign, orderId, paymentId, signature) {
      return Err(BadRequest);
    }
    CompleteOrder(db, orderId, paymentId);
    r := Ok(());
  }
}
