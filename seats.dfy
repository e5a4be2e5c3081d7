/** The seat allocator of Backend/controllers/ticketController.js:
    `getExistingSeats` (lines 12-23) and `generateSeatNumbers` (lines 26-39).
    A seat label is `UPPER(type)-n`; the allocator walks n = 1, 2, ... and
    keeps every label not already issued until it has `quantity` of them. */
module Seats {
  import opened Strings
  import opened Models

  /** The label of counter `n` for a type code: `${type.toUpperCase()}-${n}`. */
  function Label(code: string, n: nat): (l: string)
    ensures |l| > |code| + 1
  {
    Upper(code) + "-" + NatToString(n)
  }

  /** For one type code, distinct counters give distinct labels. */
  lemma LabelInjective(code: string, m: nat, n: nat)
    requires Label(code, m) == Label(code, n)
    ensures m == n
  {
    var p := Upper(code) + "-";
    assert Label(code, m)[|p|..] == NatToString(m);
    assert Label(code, n)[|p|..] == NatToString(n);
    NatToStringInjective(m, n);
  }

  predicate NoDup<T(==)>(s: seq<T>)
  {
    forall i, j :: 0 <= i < j < |s| ==> s[i] != s[j]
  }

  /** The counters 1..upto whose label is not in `existing`, increasing. */
  function FreeCounters(existing: seq<string>, code: string, upto: nat): seq<nat>
    decreases upto
  {
    if upto == 0 then []
    else (FreeCounters(existing, code, upto - 1) +
      (if Label(code, upto) in existing then [] else [upto]))
  }

  /** The labels of counters 1..upto that are already issued. */
  ghost function Taken(existing: seq<string>, code: string, upto: nat): set<string>
    decreases upto
  {
    if upto == 0 then {}
    else (Taken(existing, code, upto - 1) +
      (if Label(code, upto) in existing then {Label(code, upto)} else {}))
  }

  /** The labels of a run of counters. */
  function Labels(code: string, cs: seq<nat>): (ls: seq<string>)
    ensures |ls| == |cs|
    ensures forall i :: 0 <= i < |cs| ==> ls[i] == Label(code, cs[i])
  {
    seq(|cs|, i requires 0 <= i < |cs| => Label(code, cs[i]))
  }

  /** Labelling one more counter appends its label. */
  lemma LabelsSnoc(code: string, cs: seq<nat>, c: nat)
    ensures Labels(code, cs + [c]) == Labels(code, cs) + [Label(code, c)]
  {
    var a, b := Labels(code, cs + [c]), Labels(code, cs) + [Label(code, c)];
    assert |a| == |b|;
    forall i | 0 <= i < |a|
      ensures a[i] == b[i]
    {
      if i < |cs| {
        assert (cs + [c])[i] == cs[i];
      }
    }
  }

  lemma {:induction false} NotTakenBeyond(existing: seq<string>, code: string, upto: nat, n: nat)
    requires n > upto
    ensures Label(code, n) !in Taken(existing, code, upto)
    decreases upto
  {
    if upto > 0 {
      NotTakenBeyond(existing, code, upto - 1, n);
      if Label(code, n) == Label(code, upto) {
        LabelInjective(code, n, upto);
      }
    }
  }

  lemma {:induction false} SetOfSeqSize<T>(s: seq<T>)
    ensures |set x | x in s| <= |s|
  {
    if |s| > 0 {
      var init := s[..|s| - 1];
      SetOfSeqSize(init);
      assert (set x | x in s) == (set x | x in init) + {s[|s| - 1]};
    }
  }

  /** Every counter up to `upto` is either free or taken. */
  lemma {:induction false} FreeOrTaken(existing: seq<string>, code: string, upto: nat)
    ensures |FreeCounters(existing, code, upto)| + |Taken(existing, code, upto)| == upto
    decreases upto
  {
    if upto > 0 {
      FreeOrTaken(existing, code, upto - 1);
      if Label(code, upto) in existing {
        IssuedStep(existing, code, upto);
      } else {
        FreeStep(existing, code, upto);
      }
    }
  }

  /** An issued counter joins the taken labels, which did not hold it yet. */
  lemma IssuedStep(existing: seq<string>, code: string, upto: nat)
    requires upto > 0 && Label(code, upto) in existing
    ensures FreeCounters(existing, code, upto) == FreeCounters(existing, code, upto - 1)
    ensures |Taken(existing, code, upto)| == |Taken(existing, code, upto - 1)| + 1
  {
    var prev := Taken(existing, code, upto - 1);
    NotTakenBeyond(existing, code, upto - 1, upto);
    assert Taken(existing, code, upto) == prev + {Label(code, upto)};
  }

  /** A free counter joins the free counters. */
  lemma FreeStep(existing: seq<string>, code: string, upto: nat)
    requires upto > 0 && Label(code, upto) !in existing
    ensures |FreeCounters(existing, code, upto)| == |FreeCounters(existing, code, upto - 1)| + 1
    ensures Taken(existing, code, upto) == Taken(existing, code, upto - 1)
  {
  }

  lemma {:induction false} TakenWithin(existing: seq<string>, code: string, upto: nat)
    ensures Taken(existing, code, upto) <= set x | x in existing
    decreases upto
  {
    if upto > 0 {
      TakenWithin(existing, code, upto - 1);
    }
  }

  lemma SubsetSize<T>(a: set<T>, b: set<T>)
    requires a <= b
    ensures |a| <= |b|
  {
    assert b == a + (b - a);
  }

  /** Every counter up to `upto` is either free or taken, and at most
      |existing| of them are taken. This is why the allocator's loop stops. */
  lemma CounterBudget(existing: seq<string>, code: string, upto: nat)
    ensures |FreeCounters(existing, code, upto)| + |Taken(existing, code, upto)| == upto
    ensures Taken(existing, code, upto) <= set x | x in existing
    ensures |Taken(existing, code, upto)| <= |existing|
  {
    FreeOrTaken(existing, code, upto);
    TakenWithin(existing, code, upto);
    SetOfSeqSize(existing);
    SubsetSize(Taken(existing, code, upto), set x | x in existing);
  }

  lemma {:induction false} FreeCountersPrefix(existing: seq<string>, code: string, a: nat, b: nat)
    requires a <= b
    ensures FreeCounters(existing, code, a) <= FreeCounters(existing, code, b)
    decreases b - a
  {
    if a < b {
      FreeCountersPrefix(existing, code, a, b - 1);
    }
  }

  lemma {:induction false} FreeCountersBounded(existing: seq<string>, code: string, upto: nat, i: nat)
    requires i < |FreeCounters(existing, code, upto)|
    ensures 1 <= FreeCounters(existing, code, upto)[i] <= upto
    decreases upto
  {
    var prev := FreeCounters(existing, code, upto - 1);
    if i < |prev| {
      FreeCountersBounded(existing, code, upto - 1, i);
    }
  }

  lemma {:induction false} FreeCountersIncreasing(existing: seq<string>, code: string, upto: nat, i: nat, j: nat)
    requires i < j < |FreeCounters(existing, code, upto)|
    ensures FreeCounters(existing, code, upto)[i] < FreeCounters(existing, code, upto)[j]
    decreases upto
  {
    var prev := FreeCounters(existing, code, upto - 1);
    if j < |prev| {
      FreeCountersIncreasing(existing, code, upto - 1, i, j);
    } else {
      FreeCountersBounded(existing, code, upto - 1, i);
      assert FreeCounters(existing, code, upto)[i] == prev[i];
    }
  }

  lemma {:induction false} FreeCountersFree(existing: seq<string>, code: string, upto: nat, i: nat)
    requires i < |FreeCounters(existing, code, upto)|
    ensures Label(code, FreeCounters(existing, code, upto)[i]) !in existing
    decreases upto
  {
    var prev := FreeCounters(existing, code, upto - 1);
    if i < |prev| {
      FreeCountersFree(existing, code, upto - 1, i);
    }
  }

  lemma {:induction false} FreeCountersComplete(existing: seq<string>, code: string, upto: nat, c: nat)
    requires 1 <= c <= upto && Label(code, c) !in existing
    ensures c in FreeCounters(existing, code, upto)
    decreases upto
  {
    var prev := FreeCounters(existing, code, upto - 1);
    if c < upto {
      FreeCountersComplete(existing, code, upto - 1, c);
    }
    assert FreeCounters(existing, code, upto) == prev + (if Label(code, upto) in existing then [] else [upto]);
  }

  /** The `quantity` smallest free counters (none when quantity <= 0). */
  function SmallestFreeCounters(existing: seq<string>, code: string, quantity: int): (cs: seq<nat>)
    ensures |cs| == if quantity <= 0 then 0 else quantity
  {
    if quantity <= 0 then []
    else
      var all := FreeCounters(existing, code, |existing| + quantity);
      CounterBudget(existing, code, |existing| + quantity);
      all[..quantity]
  }

  /** What `generateSeatNumbers(existingSeats, type, quantity)` returns. */
  function SeatNumbers(existing: seq<string>, code: string, quantity: int): (seats: seq<string>)
    ensures |seats| == if quantity <= 0 then 0 else quantity
  {
    Labels(code, SmallestFreeCounters(existing, code, quantity))
  }

  /** The allocator's promise: exactly `quantity` labels (none for a
      quantity of 0 or less), none already issued, pairwise distinct, each
      `UPPER(type)-n` with n >= 1, n increasing, and no free n skipped. */
  lemma {:induction false} SeatNumbersSpec(existing: seq<string>, code: string, quantity: int)
    ensures var seats := SeatNumbers(existing, code, quantity);
      && |seats| == (if quantity <= 0 then 0 else quantity)
      && (forall i :: 0 <= i < |seats| ==> seats[i] !in existing)
      && NoDup(seats)
    ensures var cs := SmallestFreeCounters(existing, code, quantity);
      && (forall i :: 0 <= i < |cs| ==> cs[i] >= 1 && SeatNumbers(existing, code, quantity)[i] == Label(code, cs[i]))
      && (forall i, j :: 0 <= i < j < |cs| ==> cs[i] < cs[j])
      && (forall c, i :: c >= 1 && Label(code, c) !in existing && c !in cs && 0 <= i < |cs| ==> cs[i] < c)
  {
    var seats := SeatNumbers(existing, code, quantity);
    var cs := SmallestFreeCounters(existing, code, quantity);
    if quantity > 0 {
      var n := |existing| + quantity;
      var all := FreeCounters(existing, code, n);
      CounterBudget(existing, code, n);
      assert cs == all[..quantity];
      forall i | 0 <= i < |seats|
        ensures seats[i] !in existing && 1 <= cs[i] <= n
      {
        FreeCountersFree(existing, code, n, i);
        FreeCountersBounded(existing, code, n, i);
      }
      forall i, j | 0 <= i < j < |cs|
        ensures cs[i] < cs[j]
      {
        FreeCountersIncreasing(existing, code, n, i, j);
      }
      forall i, j | 0 <= i < j < |seats|
        ensures seats[i] != seats[j]
      {
        if seats[i] == seats[j] {
          LabelInjective(code, cs[i], cs[j]);
        }
      }
      forall c, i | c >= 1 && Label(code, c) !in existing && c !in cs && 0 <= i < |cs|
        ensures cs[i] < c
      {
        if c <= n {
          FreeCountersComplete(existing, code, n, c);
          var k :| 0 <= k < |all| && all[k] == c;
          if k >= quantity {
            FreeCountersIncreasing(existing, code, n, i, k);
          }
        }
      }
    }
  }

  /** `generateSeatNumbers` (ticketController.js:26-39): a counter loop
      that pushes each label not yet issued. */
  method GenerateSeatNumbers(existing: seq<string>, code: string, quantity: int)
    returns (seats: seq<string>)
    ensures seats == SeatNumbers(existing, code, quantity)
  {
    seats := [];
    var counter: nat := 1;
    ghost var cs: seq<nat> := [];
    while |seats| < quantity
      invariant cs == FreeCounters(existing, code, counter - 1)
      invariant seats == Labels(code, cs)
      invariant quantity <= 0 ==> seats == []
      invariant quantity > 0 ==> |seats| <= quantity
      invariant counter - 1 <= |existing| + |seats|
      decreases |existing| + quantity + 1 - counter
    {
      var seat := Label(code, counter);
      if seat !in existing {
        LabelsSnoc(code, cs, counter);
        seats := seats + [seat];
        cs := cs + [counter];
      }
      assert cs == FreeCounters(existing, code, counter);
      counter := counter + 1;
      CounterBudget(existing, code, counter - 1);
    }
    if quantity > 0 {
      var all := FreeCounters(existing, code, |existing| + quantity);
      FreeCountersPrefix(existing, code, counter - 1, |existing| + quantity);
      assert cs == all[..quantity];
      assert SmallestFreeCounters(existing, code, quantity) == cs;
    }
  }

  /** The seat labels of the line items of one type code, in line order:
      `tickets.filter(t => t.type === type).flatMap(t => t.seatNumbers)`. */
  function CodeSeats(items: seq<LineItem>, code: string): seq<string>
  {
    if |items| == 0 then []
    else (CodeSeats(items[..|items| - 1], code) +
      (if items[|items| - 1].code == code then items[|items| - 1].seatNumbers else []))
  }

  /** `getExistingSeats(eventId, type)` over the stored bookings, in booking
      then line-item order. */
  function ExistingSeats(tickets: seq<Ticket>, eventId: EventId, code: string): seq<string>
  {
    if |tickets| == 0 then []
    else (ExistingSeats(tickets[..|tickets| - 1], eventId, code) +
      (if tickets[|tickets| - 1].eventId == eventId then CodeSeats(tickets[|tickets| - 1].items, code) else []))
  }

  /** A line item of this booking, of this type, holds the seat. */
  predicate ItemHolds(items: seq<LineItem>, code: string, seat: string, j: int)
  {
    0 <= j < |items| && items[j].code == code && seat in items[j].seatNumbers
  }

  ghost predicate TicketHolds(t: Ticket, eventId: EventId, code: string, seat: string)
  {
    t.eventId == eventId && exists j :: ItemHolds(t.items, code, seat, j)
  }

  lemma {:induction false} CodeSeatsIff(items: seq<LineItem>, code: string, seat: string)
    ensures seat in CodeSeats(items, code) <==> exists j :: ItemHolds(items, code, seat, j)
  {
    if |items| > 0 {
      var init := items[..|items| - 1];
      CodeSeatsIff(init, code, seat);
      var tail := if items[|items| - 1].code == code then items[|items| - 1].seatNumbers else [];
      assert CodeSeats(items, code) == CodeSeats(init, code) + tail;
      if seat in tail {
        assert ItemHolds(items, code, seat, |items| - 1);
      }
      if exists j :: ItemHolds(items, code, seat, j) {
        var j :| ItemHolds(items, code, seat, j);
        if j < |init| {
          assert ItemHolds(init, code, seat, j);
        }
      }
      if exists j :: ItemHolds(init, code, seat, j) {
        var j :| ItemHolds(init, code, seat, j);
        assert items[j] == init[j];
        assert ItemHolds(items, code, seat, j);
      }
    }
  }

  /** A seat is among the existing seats exactly when some booking of the
      event has a line item of the type that holds it. */
  lemma {:induction false} ExistingSeatsIff(tickets: seq<Ticket>, eventId: EventId, code: string, seat: string)
    ensures seat in ExistingSeats(tickets, eventId, code) <==>
      exists i :: 0 <= i < |tickets| && TicketHolds(tickets[i], eventId, code, seat)
  {
    if |tickets| > 0 {
      var init := tickets[..|tickets| - 1];
      var last := tickets[|tickets| - 1];
      ExistingSeatsIff(init, eventId, code, seat);
      CodeSeatsIff(last.items, code, seat);
      if exists i :: 0 <= i < |tickets| && TicketHolds(tickets[i], eventId, code, seat) {
        var i :| 0 <= i < |tickets| && TicketHolds(tickets[i], eventId, code, seat);
        if i < |init| {
          assert TicketHolds(init[i], eventId, code, seat);
        }
      }
      if exists i :: 0 <= i < |init| && TicketHolds(init[i], eventId, code, seat) {
        var i :| 0 <= i < |init| && TicketHolds(init[i], eventId, code, seat);
        assert TicketHolds(tickets[i], eventId, code, seat);
      }
    }
  }

  /** Scanning two runs of bookings is scanning each in turn. */
  lemma {:induction false} ExistingSeatsAppend(a: seq<Ticket>, b: seq<Ticket>, eventId: EventId, code: string)
    ensures ExistingSeats(a + b, eventId, code) == ExistingSeats(a, eventId, code) + ExistingSeats(b, eventId, code)
    decreases |b|
  {
    if |b| > 0 {
      var b' := b[..|b| - 1];
      assert (a + b)[..|a + b| - 1] == a + b';
      ExistingSeatsAppend(a, b', eventId, code);
    } else {
      assert a + b == a;
    }
  }
}
