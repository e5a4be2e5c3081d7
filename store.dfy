/** The document store the controllers share: events, ticket types,
    bookings and payment records, each collection in insertion order (the
    order in which the database returns unsorted query results). */
module Database {
  import opened Models
  import opened Seats

  /** The (eventId, type) key of each ticket type, in order. */
  function TypeKeys(types: seq<TicketType>): (keys: seq<(EventId, string)>)
    ensures |keys| == |types|
    ensures forall i :: 0 <= i < |types| ==> keys[i] == (types[i].eventId, types[i].code)
  {
    seq(|types|, i requires 0 <= i < |types| => (types[i].eventId, types[i].code))
  }

  /** The identifier, order id and creation-time columns below are one
      projection per record type; each is named so that the uniqueness and
      ordering invariants can speak of the column directly. */
  function TypeIds(types: seq<TicketType>): (ids: seq<nat>)
    ensures |ids| == |types|
    ensures forall i :: 0 <= i < |types| ==> ids[i] == types[i].id
  {
    seq(|types|, i requires 0 <= i < |types| => types[i].id)
  }

  function TicketIds(tickets: seq<Ticket>): (ids: seq<nat>)
    ensures |ids| == |tickets|
    ensures forall i :: 0 <= i < |tickets| ==> ids[i] == tickets[i].id
  {
    seq(|tickets|, i requires 0 <= i < |tickets| => tickets[i].id)
  }

  function OrderIds(payments: seq<Payment>): (ids: seq<string>)
    ensures |ids| == |payments|
    ensures forall i :: 0 <= i < |payments| ==> ids[i] == payments[i].orderId
  {
    seq(|payments|, i requires 0 <= i < |payments| => payments[i].orderId)
  }

  function PaymentTimes(payments: seq<Payment>): (times: seq<nat>)
    ensures |times| == |payments|
    ensures forall i :: 0 <= i < |payments| ==> times[i] == payments[i].createdAt
  {
    seq(|payments|, i requires 0 <= i < |payments| => payments[i].createdAt)
  }

  predicate AllBelow(xs: seq<nat>, bound: nat)
  {
    forall i :: 0 <= i < |xs| ==> xs[i] < bound
  }

  predicate Increasing(xs: seq<nat>)
  {
    forall i, j :: 0 <= i < j < |xs| ==> xs[i] < xs[j]
  }

  /** At most one ticket type per (eventId, type): the unique index of
      Backend/models/TicketType.js:30. */
  predicate UniqueTypeKeys(types: seq<TicketType>)
  {
    NoDup(TypeKeys(types))
  }

  /** Identifiers are distinct and were all handed out before `nextId`. */
  predicate TypeIdsFresh(types: seq<TicketType>, nextId: nat)
  {
    AllBelow(TypeIds(types), nextId) && NoDup(TypeIds(types))
  }

  predicate TicketIdsFresh(tickets: seq<Ticket>, nextId: nat)
  {
    AllBelow(TicketIds(tickets), nextId) && NoDup(TicketIds(tickets))
  }

  /** Unique `orderId` (Backend/models/Payment.js:9-13) and creation times
      that grow with insertion order and lie in the past. */
  predicate PaymentsWellFormed(payments: seq<Payment>, clock: nat)
  {
    NoDup(OrderIds(payments)) && Increasing(PaymentTimes(payments)) && AllBelow(PaymentTimes(payments), clock)
  }

  /** A fresh identifier may be appended. */
  lemma AppendFresh(ids: seq<nat>, nextId: nat)
    requires AllBelow(ids, nextId) && NoDup(ids)
    ensures AllBelow(ids + [nextId], nextId + 1) && NoDup(ids + [nextId])
  {
  }

  /** A value not yet present may be appended. */
  lemma AppendNew<T>(xs: seq<T>, x: T)
    requires NoDup(xs) && x !in xs
    ensures NoDup(xs + [x])
  {
    var ys := xs + [x];
    forall a, b | 0 <= a < b < |ys|
      ensures ys[a] != ys[b]
    {
      if b == |xs| {
        assert ys[a] == xs[a];
      }
    }
  }

  /** An entry may be overwritten by a value no other entry holds. */
  lemma UpdateNew<T>(xs: seq<T>, i: nat, x: T)
    requires NoDup(xs) && i < |xs|
    requires forall j :: 0 <= j < |xs| && j != i ==> xs[j] != x
    ensures NoDup(xs[i := x])
  {
  }

  /** Removing one entry keeps identifiers fresh and distinct. */
  lemma RemoveFresh<T>(ids: seq<T>, i: nat)
    requires NoDup(ids) && i < |ids|
    ensures NoDup(ids[..i] + ids[i + 1..])
  {
    var rest := ids[..i] + ids[i + 1..];
    forall a, b | 0 <= a < b < |rest|
      ensures rest[a] != rest[b]
    {
      assert rest[a] == ids[if a < i then a else a + 1];
      assert rest[b] == ids[if b < i then b else b + 1];
    }
  }

  predicate CapacitiesNonNegative(types: seq<TicketType>)
  {
    forall i :: 0 <= i < |types| ==> types[i].availableQuantity >= 0
  }

  predicate BookedQuantitiesNonNegative(tickets: seq<Ticket>)
  {
    forall i, j :: 0 <= i < |tickets| && 0 <= j < |tickets[i].items| ==> tickets[i].items[j].quantity >= 0
  }

  /** No seat label is issued twice for one (event, type) scope. */
  ghost predicate SeatsUnique(tickets: seq<Ticket>)
  {
    forall e, c :: NoDup(ExistingSeats(tickets, e, c))
  }

  /** The inventory invariants the booking workflow is meant to keep:
      capacities and booked quantities are never negative and seat labels
      are unique per (event, type). */
  ghost predicate Inventory(types: seq<TicketType>, tickets: seq<Ticket>)
  {
    CapacitiesNonNegative(types) && BookedQuantitiesNonNegative(tickets) && SeatsUnique(tickets)
  }

  /** The first ticket type of the event with this type code (`findOne`). */
  function FindTypeIndex(types: seq<TicketType>, eventId: EventId, code: string): (r: Option<nat>)
    ensures r.Some? ==> r.value < |types| && types[r.value].eventId == eventId && types[r.value].code == code
    ensures r.Some? ==> forall k :: 0 <= k < r.value ==> types[k].eventId != eventId || types[k].code != code
    ensures r.None? ==> forall k :: 0 <= k < |types| ==> types[k].eventId != eventId || types[k].code != code
  {
    if |types| == 0 then None
    else if types[0].eventId == eventId && types[0].code == code then Some(0)
    else match FindTypeIndex(types[1..], eventId, code)
      case None => None
      case Some(k) => Some(k + 1)
  }

  /** The first position holding `x`: the one search behind every lookup by
      a stored key (`findById`, `findOne` on a unique field). */
  function IndexOf<T(==)>(xs: seq<T>, x: T): (r: Option<nat>)
    ensures r.Some? ==> r.value < |xs| && xs[r.value] == x
    ensures r.Some? ==> forall k :: 0 <= k < r.value ==> xs[k] != x
    ensures r.None? ==> forall k :: 0 <= k < |xs| ==> xs[k] != x
  {
    if |xs| == 0 then None
    else if xs[0] == x then Some(0)
    else match IndexOf(xs[1..], x)
      case None => None
      case Some(k) => Some(k + 1)
  }

  /** `TicketType.findById`. */
  function FindTypeById(types: seq<TicketType>, id: TicketTypeId): (r: Option<nat>)
    ensures r.Some? ==> r.value < |types| && types[r.value].id == id
    ensures r.None? ==> forall k :: 0 <= k < |types| ==> types[k].id != id
  {
    IndexOf(TypeIds(types), id)
  }

  /** `Ticket.findById`. */
  function FindTicket(tickets: seq<Ticket>, id: TicketId): (r: Option<nat>)
    ensures r.Some? ==> r.value < |tickets| && tickets[r.value].id == id
    ensures r.None? ==> forall k :: 0 <= k < |tickets| ==> tickets[k].id != id
  {
    IndexOf(TicketIds(tickets), id)
  }

  /** `Ticket.findOne({ razorpayOrderId })`: the first booking carrying the order id. */
  function FindTicketByOrder(tickets: seq<Ticket>, orderId: string): (r: Option<nat>)
    ensures r.Some? ==> r.value < |tickets| && tickets[r.value].razorpayOrderId == Some(orderId)
    ensures r.Some? ==> forall k :: 0 <= k < r.value ==> tickets[k].razorpayOrderId != Some(orderId)
    ensures r.None? ==> forall k :: 0 <= k < |tickets| ==> tickets[k].razorpayOrderId != Some(orderId)
  {
    if |tickets| == 0 then None
    else if tickets[0].razorpayOrderId == Some(orderId) then Some(0)
    else match FindTicketByOrder(tickets[1..], orderId)
      case None => None
      case Some(k) => Some(k + 1)
  }

  /** `Payment.findOne({ orderId })`. */
  function FindPaymentByOrder(payments: seq<Payment>, orderId: string): (r: Option<nat>)
    ensures r.Some? ==> r.value < |payments| && payments[r.value].orderId == orderId
    ensures r.None? ==> forall k :: 0 <= k < |payments| ==> payments[k].orderId != orderId
  {
    IndexOf(OrderIds(payments), orderId)
  }

  /** The ticket types after adding `delta` to the capacity of the one
      with key (eventId, code), if there is one. */
  function AdjustCapacity(types: seq<TicketType>, eventId: EventId, code: string, delta: int): (r: seq<TicketType>)
    ensures |r| == |types|
    ensures forall i :: 0 <= i < |types| ==>
      r[i] == (if types[i].eventId == eventId && types[i].code == code
               then types[i].(availableQuantity := types[i].availableQuantity + delta)
               else types[i])
  {
    seq(|types|, i requires 0 <= i < |types| =>
      if types[i].eventId == eventId && types[i].code == code
      then types[i].(availableQuantity := types[i].availableQuantity + delta)
      else types[i])
  }

  /** `event.availableSeats += delta` on the booking's event, when it exists. */
  function ShiftSeats(events: map<EventId, Event>, eventId: EventId, delta: int): (r: map<EventId, Event>)
    ensures r.Keys == events.Keys
    ensures forall e :: e in events && e != eventId ==> r[e] == events[e]
    ensures eventId in events ==>
      r[eventId] == events[eventId].(availableSeats := events[eventId].availableSeats + delta)
  {
    if eventId in events
    then events[eventId := events[eventId].(availableSeats := events[eventId].availableSeats + delta)]
    else events
  }

  /** Shifting an event's seats by `delta` and then by `-delta` restores
      the events. */
  lemma ShiftSeatsInverse(events: map<EventId, Event>, eventId: EventId, delta: int)
    ensures ShiftSeats(ShiftSeats(events, eventId, delta), eventId, -delta) == events
  {
  }

  /** Two runs of ticket types that differ at most in their capacities. */
  predicate SameTypeKeys(a: seq<TicketType>, b: seq<TicketType>)
  {
    |a| == |b| &&
    forall i :: 0 <= i < |a| ==> a[i].(availableQuantity := 0) == b[i].(availableQuantity := 0)
  }

  class Store {
    var events: map<EventId, Event>
    var ticketTypes: seq<TicketType>
    var tickets: seq<Ticket>
    var payments: seq<Payment>
    /** The next identifier handed to a new ticket type or booking. */
    var nextId: nat
    /** A logical clock standing for `createdAt` and `verifiedAt` timestamps. */
    var clock: nat

    /** The structural constraints the database itself enforces. */
    ghost predicate Valid()
      reads this
    {
      && UniqueTypeKeys(ticketTypes)
      && TypeIdsFresh(ticketTypes, nextId)
      && TicketIdsFresh(tickets, nextId)
      && PaymentsWellFormed(payments, clock)
    }

    /** The structural constraints together with the inventory invariants. */
    ghost predicate Consistent()
      reads this
    {
      Valid() && Inventory(ticketTypes, tickets)
    }

    /** A store holding the given events and nothing else. */
    constructor (events: map<EventId, Event>)
      ensures this.events == events
      ensures ticketTypes == [] && tickets == [] && payments == []
      ensures Consistent()
    {
      this.events := events;
      ticketTypes, tickets, payments := [], [], [];
      nextId, clock := 0, 0;
      new;
      assert forall e, c :: ExistingSeats([], e, c) == [];
    }

    /** Find the ticket type (eventId, code) and add `delta` to its
        capacity: `ticketType.availableQuantity += delta; save()`. */
    method AdjustTypeCapacity(eventId: EventId, code: string, delta: int) returns (found: bool)
      requires Valid()
      modifies this`ticketTypes
      ensures Valid()
      ensures found == FindTypeIndex(old(ticketTypes), eventId, code).Some?
      ensures ticketTypes == AdjustCapacity(old(ticketTypes), eventId, code, delta)
      ensures SameTypeKeys(old(ticketTypes), ticketTypes)
    {
      var idx := FindTypeIndex(ticketTypes, eventId, code);
      found := idx.Some?;
      if idx.Some? {
        var t := ticketTypes[idx.value];
        ticketTypes := ticketTypes[idx.value := t.(availableQuantity := t.availableQuantity + delta)];
        assert ticketTypes == AdjustCapacity(old(ticketTypes), eventId, code, delta);
        assert TypeKeys(ticketTypes) == TypeKeys(old(ticketTypes));
        assert TypeIds(ticketTypes) == TypeIds(old(ticketTypes));
      }
    }

    /** Overwrite the booking at index `i` with a version of itself
        (`ticket.save()` after setting its payment fields). */
    method ReplaceTicket(i: nat, t: Ticket)
      requires Valid()
      requires i < |tickets| && t.id == tickets[i].id
      modifies this`tickets
      ensures Valid()
      ensures tickets == old(tickets)[i := t]
    {
      tickets := tickets[i := t];
      assert TicketIds(tickets) == TicketIds(old(tickets));
    }

    /** `Ticket.create`: the booking is stored under the next identifier
        and stamped with the current time. */
    method InsertTicket(t: Ticket)
      requires Valid()
      requires t.id == nextId && t.createdAt == clock
      modifies this`tickets, this`nextId, this`clock
      ensures Valid()
      ensures tickets == old(tickets) + [t]
      ensures nextId == old(nextId) + 1 && clock == old(clock) + 1
    {
      AppendFresh(TicketIds(tickets), nextId);
      assert TicketIds(tickets + [t]) == TicketIds(tickets) + [t.id];
      tickets := tickets + [t];
      nextId := nextId + 1;
      clock := clock + 1;
    }

    /** `ticket.remove()` for the booking at index `i`. */
    method DeleteTicket(i: nat)
      requires Valid()
      requires i < |tickets|
      modifies this`tickets
      ensures Valid()
      ensures tickets == old(tickets)[..i] + old(tickets)[i + 1..]
    {
      var ids := TicketIds(tickets);
      tickets := tickets[..i] + tickets[i + 1..];
      RemoveFresh(ids, i);
      assert TicketIds(tickets) == ids[..i] + ids[i + 1..];
    }

    /** `TicketType.create`: the new type gets the next identifier; its
        (eventId, type) key must be new, as the unique index demands. */
    method InsertTicketType(t: TicketType)
      requires Valid()
      requires t.id == nextId && FindTypeIndex(ticketTypes, t.eventId, t.code).None?
      modifies this`ticketTypes, this`nextId
      ensures Valid()
      ensures ticketTypes == old(ticketTypes) + [t]
      ensures nextId == old(nextId) + 1
    {
      AppendFresh(TypeIds(ticketTypes), nextId);
      AppendNew(TypeKeys(ticketTypes), (t.eventId, t.code));
      assert TypeIds(ticketTypes + [t]) == TypeIds(ticketTypes) + [t.id];
      assert TypeKeys(ticketTypes + [t]) == TypeKeys(ticketTypes) + [(t.eventId, t.code)];
      ticketTypes := ticketTypes + [t];
      nextId := nextId + 1;
    }

    /** Overwrite the ticket type at index `i` with a version of itself
        whose key no other type holds. */
    method ReplaceTicketType(i: nat, t: TicketType)
      requires Valid()
      requires i < |ticketTypes| && t.id == ticketTypes[i].id
      requires forall j :: 0 <= j < |ticketTypes| && j != i ==> TypeKeys(ticketTypes)[j] != (t.eventId, t.code)
      modifies this`ticketTypes
      ensures Valid()
      ensures ticketTypes == old(ticketTypes)[i := t]
    {
      UpdateNew(TypeKeys(ticketTypes), i, (t.eventId, t.code));
      assert TypeKeys(ticketTypes[i := t]) == TypeKeys(ticketTypes)[i := (t.eventId, t.code)];
      assert TypeIds(ticketTypes[i := t]) == TypeIds(ticketTypes);
      ticketTypes := ticketTypes[i := t];
    }

    /** `Payment.create`: the record is stamped with the current time; its
        order id must be new, as the unique index demands. */
    method InsertPayment(p: Payment)
      requires Valid()
      requires p.orderId !in OrderIds(payments) && p.createdAt == clock
      modifies this`payments, this`clock
      ensures Valid()
      ensures payments == old(payments) + [p]
      ensures clock == old(clock) + 1
    {
      AppendNew(OrderIds(payments), p.orderId);
      assert OrderIds(payments + [p]) == OrderIds(payments) + [p.orderId];
      assert PaymentTimes(payments + [p]) == PaymentTimes(payments) + [clock];
      payments := payments + [p];
      clock := clock + 1;
    }

    /** Overwrite the payment at index `i` with a version of itself
        (`payment.save()` after setting its status fields). */
    method ReplacePayment(i: nat, p: Payment)
      requires Valid()
      requires i < |payments| && p.orderId == payments[i].orderId && p.createdAt == payments[i].createdAt
      modifies this`payments
      ensures Valid()
      ensures payments == old(payments)[i := p]
    {
      assert OrderIds(payments[i := p]) == OrderIds(payments);
      assert PaymentTimes(payments[i := p]) == PaymentTimes(payments);
      payments := payments[i := p];
    }

    /** `event.availableSeats += delta; event.save()` when the event exists. */
    method ShiftEventSeats(eventId: EventId, delta: int)
      requires Valid()
      modifies this`events
      ensures Valid()
      ensures events == ShiftSeats(old(events), eventId, delta)
    {
      if eventId in events {
        var event := events[eventId];
        events := events[eventId := event.(availableSeats := event.availableSeats + delta)];
      }
    }
  }
}
