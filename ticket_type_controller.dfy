/** The ticket-type catalogue (Backend/controllers/ticketTypeController.js):
    listing the types of one event, bulk creation with every type's
    capacity set to its maximum, and overwriting one type from a request
    body. */
module TicketTypeController {
  import opened Models
  import opened Seats
  import opened Database
  import opened Sequences

  // ---------------------------------------------------------------------
  // Listing

  /** `TicketType.find({ eventId })`: the types of one event, in store order. */
  function TypesOfEvent(types: seq<TicketType>, eventId: EventId): (r: seq<TicketType>)
    ensures |r| <= |types|
    decreases |types|
  {
    if |types| == 0 then []
    else
      var rest := TypesOfEvent(types[..|types| - 1], eventId);
      if types[|types| - 1].eventId == eventId then rest + [types[|types| - 1]] else rest
  }

  /** A ticket type is listed exactly when it is stored under that event. */
  lemma {:induction false} TypesOfEventIff(types: seq<TicketType>, eventId: EventId)
    ensures forall t :: t in TypesOfEvent(types, eventId) <==> t in types && t.eventId == eventId
    decreases |types|
  {
    if |types| > 0 {
      var n := |types| - 1;
      TypesOfEventIff(types[..n], eventId);
      assert types == types[..n] + [types[n]];
    }
  }

  /** Listing keeps the store's order: the result is a subsequence of the
      ticket types. */
  lemma {:induction false} TypesOfEventInOrder(types: seq<TicketType>, eventId: EventId)
    ensures IsSubsequence(TypesOfEvent(types, eventId), types)
    decreases |types|
  {
    if |types| == 0 {
      assert Embeds([], [], types);
    } else {
      var n := |types| - 1;
      var prev := TypesOfEvent(types[..n], eventId);
      var keep := types[n].eventId == eventId;
      assert TypesOfEvent(types, eventId) == if keep then prev + [types[n]] else prev;
      TypesOfEventInOrder(types[..n], eventId);
      SubsequenceSnoc(prev, types[..n], types[n], keep);
      assert types[..n] + [types[n]] == types;
    }
  }

  /** `getTicketTypes` (ticketTypeController.js:5-17): a request without an
      event id is refused (400) before the store is read. */
  function GetTicketTypes(types: seq<TicketType>, eventId: Option<EventId>): (r: Reply<seq<TicketType>>)
    ensures eventId.None? <==> r == Err(BadRequest)
    ensures eventId.Some? ==> r.Ok? && forall t :: t in r.value <==> t in types && t.eventId == eventId.value
  {
    if eventId.None? then Err(BadRequest)
    else
      TypesOfEventIff(types, eventId.value);
      Ok(TypesOfEvent(types, eventId.value))
  }

  // ---------------------------------------------------------------------
  // Bulk creation

  /** One entry of the `ticketTypes` array of a creation request. Fields
      the client may leave out are optional; `maxQuantity` is not a schema
      field and only seeds the capacity. */
  datatype TypeEntry = TypeEntry(code: string, name: string, price: Option<int>, benefits: seq<string>,
                                 maxQuantity: Option<int>)

  /** The schema's required fields are present: `type` and `name` are
      non-empty, `price` and the capacity taken from `maxQuantity` are set
      (Backend/models/TicketType.js:4-25). */
  predicate EntryComplete(e: TypeEntry)
  {
    e.code != "" && e.name != "" && e.price.Some? && e.maxQuantity.Some?
  }

  /** `TicketType.create({ ...type, eventId, availableQuantity: type.maxQuantity })`. */
  function NewType(id: TicketTypeId, eventId: EventId, e: TypeEntry): (t: TicketType)
    requires EntryComplete(e)
    ensures t.id == id && t.eventId == eventId && t.code == e.code
    ensures t.availableQuantity == e.maxQuantity.value
  {
    TicketType(id, eventId, e.code, e.name, e.price.value, e.benefits, e.maxQuantity.value)
  }

  /** The outcome of creating a batch of entries: the ticket types
      afterwards, the next identifier, the types created (in entry order)
      and whether some entry was refused. */
  datatype Batch = Batch(types: seq<TicketType>, nextId: nat, created: seq<TicketType>, failed: bool)

  /** Every entry is attempted in order; one that lacks a required field
      or whose (eventId, type) key is already taken is refused, the others
      are stored. */
  function Admit(types: seq<TicketType>, nextId: nat, eventId: EventId, entries: seq<TypeEntry>): (b: Batch)
    ensures b.types == types + b.created
    ensures b.nextId == nextId + |b.created| && |b.created| <= |entries|
    ensures forall k :: 0 <= k < |b.created| ==> b.created[k].eventId == eventId && b.created[k].id == nextId + k
    decreases |entries|
  {
    if |entries| == 0 then Batch(types, nextId, [], false)
    else
      var b := Admit(types, nextId, eventId, entries[..|entries| - 1]);
      var e := entries[|entries| - 1];
      if EntryComplete(e) && FindTypeIndex(b.types, eventId, e.code).None? then
        var t := NewType(b.nextId, eventId, e);
        Batch(b.types + [t], b.nextId + 1, b.created + [t], b.failed)
      else b.(failed := true)
  }

  /** `Admit` over the first `k + 1` entries is one more step after the
      first `k`. */
  lemma AdmitStep(types: seq<TicketType>, nextId: nat, eventId: EventId, entries: seq<TypeEntry>, k: nat)
    requires k < |entries|
    ensures var b := Admit(types, nextId, eventId, entries[..k]);
      var e := entries[k];
      Admit(types, nextId, eventId, entries[..k + 1])
        == if EntryComplete(e) && FindTypeIndex(b.types, eventId, e.code).None?
           then Batch(b.types + [NewType(b.nextId, eventId, e)], b.nextId + 1, b.created + [NewType(b.nextId, eventId, e)], b.failed)
           else b.(failed := true)
  {
    assert entries[..k + 1][..k] == entries[..k];
  }

  /** A batch fails exactly when some entry was not stored. */
  lemma {:induction false} AdmitFailedIff(types: seq<TicketType>, nextId: nat, eventId: EventId, entries: seq<TypeEntry>)
    ensures Admit(types, nextId, eventId, entries).failed <==> |Admit(types, nextId, eventId, entries).created| < |entries|
    decreases |entries|
  {
    if |entries| > 0 {
      AdmitFailedIff(types, nextId, eventId, entries[..|entries| - 1]);
    }
  }

  /** A batch that does not fail stores one type per entry, in entry order,
      each of the request's event and with capacity `maxQuantity`. */
  lemma {:induction false} AdmitAll(types: seq<TicketType>, nextId: nat, eventId: EventId, entries: seq<TypeEntry>)
    requires !Admit(types, nextId, eventId, entries).failed
    ensures |Admit(types, nextId, eventId, entries).created| == |entries|
    ensures forall k :: 0 <= k < |entries| ==>
      EntryComplete(entries[k]) && Admit(types, nextId, eventId, entries).created[k] == NewType(nextId + k, eventId, entries[k])
    decreases |entries|
  {
    if |entries| > 0 {
      var n := |entries| - 1;
      var prefix := entries[..n];
      var b := Admit(types, nextId, eventId, prefix);
      assert !b.failed;
      AdmitAll(types, nextId, eventId, prefix);
      assert forall k :: 0 <= k < n ==> entries[k] == prefix[k];
    }
  }

  /** A batch of complete entries with distinct type codes, none of which
      the event has yet, is stored whole. */
  lemma {:induction false} AdmitSucceeds(types: seq<TicketType>, nextId: nat, eventId: EventId, entries: seq<TypeEntry>)
    requires forall k :: 0 <= k < |entries| ==> EntryComplete(entries[k])
    requires forall k, l :: 0 <= k < l < |entries| ==> entries[k].code != entries[l].code
    requires forall k :: 0 <= k < |entries| ==> FindTypeIndex(types, eventId, entries[k].code).None?
    ensures !Admit(types, nextId, eventId, entries).failed
    decreases |entries|
  {
    if |entries| > 0 {
      var n := |entries| - 1;
      var prefix := entries[..n];
      AdmitSucceeds(types, nextId, eventId, prefix);
      AdmitAll(types, nextId, eventId, prefix);
      var b := Admit(types, nextId, eventId, prefix);
      var e := entries[n];
      forall k | 0 <= k < |b.types|
        ensures b.types[k].eventId != eventId || b.types[k].code != e.code
      {
        if k >= |types| {
          assert b.types[k] == b.created[k - |types|] == NewType(nextId + (k - |types|), eventId, prefix[k - |types|]);
        }
      }
    }
  }

  /** Entries with non-negative maximums keep every capacity non-negative. */
  lemma {:induction false} AdmitKeepsCapacities(types: seq<TicketType>, nextId: nat, eventId: EventId, entries: seq<TypeEntry>)
    requires CapacitiesNonNegative(types)
    requires forall k :: 0 <= k < |entries| && entries[k].maxQuantity.Some? ==> entries[k].maxQuantity.value >= 0
    ensures CapacitiesNonNegative(Admit(types, nextId, eventId, entries).types)
    decreases |entries|
  {
    if |entries| > 0 {
      var n := |entries| - 1;
      AdmitKeepsCapacities(types, nextId, eventId, entries[..n]);
    }
  }

  /** `createTicketType` (ticketTypeController.js:20-43): 404 for a missing
      event; otherwise every entry is attempted, and if any is refused the
      request answers 400 while the types already stored stay stored. */
  method CreateTicketType(db: Store, eventId: EventId, entries: seq<TypeEntry>) returns (r: Reply<seq<TicketType>>)
    requires db.Valid()
    modifies db`ticketTypes, db`nextId
    ensures db.Valid()
    ensures eventId !in db.events ==>
      r == Err(NotFound) && db.ticketTypes == old(db.ticketTypes) && db.nextId == old(db.nextId)
    ensures eventId in db.events ==>
      var b := Admit(old(db.ticketTypes), old(db.nextId), eventId, entries);
      && db.ticketTypes == b.types && db.nextId == b.nextId
      && r == (if b.failed then Err(BadRequest) else Ok(b.created))
  {
    if eventId !in db.events {
      return Err(NotFound);
    }
    ghost var types0, id0 := db.ticketTypes, db.nextId;
    var created: seq<TicketType> := [];
    var failed := false;
    var k := 0;
    while k < |entries|
      invariant 0 <= k <= |entries|
      invariant db.Valid()
      invariant Admit(types0, id0, eventId, entries[..k]) == Batch(db.ticketTypes, db.nextId, created, failed)
    {
      var e := entries[k];
      AdmitStep(types0, id0, eventId, entries, k);
      if EntryComplete(e) && FindTypeIndex(db.ticketTypes, eventId, e.code).None? {
        var t := NewType(db.nextId, eventId, e);
        db.InsertTicketType(t);
        created := created + [t];
      } else {
        failed := true;
      }
      k := k + 1;
    }
    assert entries[..k] == entries;
    r := if failed then Err(BadRequest) else Ok(created);
  }

  // ---------------------------------------------------------------------
  // Update

  /** A request body for `findByIdAndUpdate`: the fields it carries. */
  datatype TypeUpdate = TypeUpdate(eventId: Option<EventId>, code: Option<string>, name: Option<string>,
                                   price: Option<int>, benefits: Option<seq<string>>,
                                   availableQuantity: Option<int>)

  const NoChange: TypeUpdate := TypeUpdate(None, None, None, None, None, None)

  function Pick<T>(field: Option<T>, current: T): T
  {
    if field.Some? then field.value else current
  }

  /** The fields present in the body overwrite the stored ones; the
      identifier never changes. */
  function Apply(t: TicketType, u: TypeUpdate): (r: TicketType)
    ensures r.id == t.id
  {
    TicketType(t.id, Pick(u.eventId, t.eventId), Pick(u.code, t.code), Pick(u.name, t.name),
               Pick(u.price, t.price), Pick(u.benefits, t.benefits), Pick(u.availableQuantity, t.availableQuantity))
  }

  /** Applying the same body twice is applying it once. */
  lemma ApplyIdempotent(t: TicketType, u: TypeUpdate)
    ensures Apply(Apply(t, u), u) == Apply(t, u)
  {
  }

  /** An empty body changes nothing. */
  lemma ApplyNoChange(t: TicketType)
    ensures Apply(t, NoChange) == t
  {
  }

  /** The body's fields in `v` win over those in `u`. */
  function Merge(u: TypeUpdate, v: TypeUpdate): TypeUpdate
  {
    TypeUpdate(if v.eventId.Some? then v.eventId else u.eventId,
               if v.code.Some? then v.code else u.code,
               if v.name.Some? then v.name else u.name,
               if v.price.Some? then v.price else u.price,
               if v.benefits.Some? then v.benefits else u.benefits,
               if v.availableQuantity.Some? then v.availableQuantity else u.availableQuantity)
  }

  /** Two updates in a row are one update with the later fields winning. */
  lemma ApplyTwice(t: TicketType, u: TypeUpdate, v: TypeUpdate)
    ensures Apply(Apply(t, u), v) == Apply(t, Merge(u, v))
  {
  }

  /** Some ticket type other than the one at `i` has the key (eventId, code). */
  predicate KeyTaken(types: seq<TicketType>, i: nat, eventId: EventId, code: string)
  {
    exists j :: 0 <= j < |types| && j != i && types[j].eventId == eventId && types[j].code == code
  }

  /** A body without a negative capacity keeps every capacity non-negative. */
  lemma UpdateKeepsCapacities(types: seq<TicketType>, i: nat, u: TypeUpdate)
    requires i < |types| && CapacitiesNonNegative(types)
    requires u.availableQuantity.Some? ==> u.availableQuantity.value >= 0
    ensures CapacitiesNonNegative(types[i := Apply(types[i], u)])
  {
    var updated := types[i := Apply(types[i], u)];
    forall k | 0 <= k < |updated|
      ensures updated[k].availableQuantity >= 0
    {
      if k != i {
        assert updated[k] == types[k];
      }
    }
  }

  /** `updateTicketType` (ticketTypeController.js:46-62): 404 for an
      unknown id; a body that moves the type onto another type's
      (eventId, type) key breaks the unique index (400); otherwise only
      that record changes. */
  method UpdateTicketType(db: Store, id: TicketTypeId, u: TypeUpdate) returns (r: Reply<TicketType>)
    requires db.Valid()
    modifies db`ticketTypes
    ensures db.Valid()
    ensures FindTypeById(old(db.ticketTypes), id).None? ==>
      r == Err(NotFound) && db.ticketTypes == old(db.ticketTypes)
    ensures FindTypeById(old(db.ticketTypes), id).Some? ==>
      var i := FindTypeById(old(db.ticketTypes), id).value;
      var t := Apply(old(db.ticketTypes)[i], u);
      && (KeyTaken(old(db.ticketTypes), i, t.eventId, t.code) ==>
            r == Err(BadRequest) && db.ticketTypes == old(db.ticketTypes))
      && (!KeyTaken(old(db.ticketTypes), i, t.eventId, t.code) ==>
            r == Ok(t) && db.ticketTypes == old(db.ticketTypes)[i := t])
  {
    var found := FindTypeById(db.ticketTypes, id);
    if found.None? {
      return Err(NotFound);
    }
    var i := found.value;
    var t := Apply(db.ticketTypes[i], u);
    if KeyTaken(db.ticketTypes, i, t.eventId, t.code) {
      return Err(BadRequest);
    }
    db.ReplaceTicketType(i, t);
    r := Ok(t);
  }
}
