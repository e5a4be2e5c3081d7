/** The quantity selector of the booking page
    (Frontend/src/components/events/SelectTickets.jsx): the
    `selectedTickets` object from type code to quantity, the clamped
    increase and decrease buttons, the running total and the request body
    built from the selection. */
module SelectTickets {
  import opened Models
  import opened Sequences

  /** One key of `selectedTickets`. */
  datatype Entry = Entry(code: string, quantity: int)

  /** A plain object's entries in key insertion order, which is the order
      `Object.entries` lists them in. */
  type Selection = seq<Entry>

  function Codes(sel: Selection): (codes: seq<string>)
    ensures |codes| == |sel|
    ensures forall k :: 0 <= k < |sel| ==> codes[k] == sel[k].code
  {
    seq(|sel|, k requires 0 <= k < |sel| => sel[k].code)
  }

  /** Every key occurs once. */
  predicate WellKeyed(sel: Selection)
  {
    forall k, l :: 0 <= k < l < |sel| ==> sel[k].code != sel[l].code
  }

  /** The position of a key. */
  function Find(sel: Selection, code: string): (r: Option<nat>)
    ensures r.Some? ==> r.value < |sel| && sel[r.value].code == code
    ensures r.None? ==> forall k :: 0 <= k < |sel| ==> sel[k].code != code
    ensures r.Some? ==> forall k :: 0 <= k < r.value ==> sel[k].code != code
    decreases |sel|
  {
    if |sel| == 0 then None
    else if sel[0].code == code then Some(0)
    else
      var r := Find(sel[1..], code);
      if r.Some? then Some(r.value + 1) else None
  }

  /** `selectedTickets[code]`, None for a missing key. */
  function Get(sel: Selection, code: string): Option<int>
  {
    match Find(sel, code)
    case None => None
    case Some(i) => Some(sel[i].quantity)
  }

  /** `{ ...prev, [code]: q }`: an existing key keeps its place, a new key
      goes last. */
  function Put(sel: Selection, code: string, q: int): (r: Selection)
    ensures Find(sel, code).Some? ==> Codes(r) == Codes(sel)
    ensures Find(sel, code).None? ==> Codes(r) == Codes(sel) + [code]
  {
    match Find(sel, code)
    case Some(i) => sel[i := Entry(code, q)]
    case None => sel + [Entry(code, q)]
  }

  /** In a well-keyed selection a key is found where it sits. */
  lemma FindAt(sel: Selection, k: nat)
    requires WellKeyed(sel) && k < |sel|
    ensures Find(sel, sel[k].code) == Some(k)
  {
  }

  /** The written key reads back the written value and no other key
      changes. */
  lemma PutGet(sel: Selection, code: string, q: int)
    requires WellKeyed(sel)
    ensures WellKeyed(Put(sel, code, q))
    ensures Get(Put(sel, code, q), code) == Some(q)
    ensures forall c :: c != code ==> Get(Put(sel, code, q), c) == Get(sel, c)
  {
    var r := Put(sel, code, q);
    match Find(sel, code)
    case Some(i) =>
      assert forall k :: 0 <= k < |r| ==> r[k].code == sel[k].code;
      forall c
        ensures Get(r, c) == if c == code then Some(q) else Get(sel, c)
      {
        if k :| 0 <= k < |sel| && sel[k].code == c {
          FindAt(sel, k);
          FindAt(r, k);
        }
      }
    case None =>
      assert forall k :: 0 <= k < |sel| ==> r[k] == sel[k];
      FindAt(r, |sel|);
      forall c | c != code
        ensures Get(r, c) == Get(sel, c)
      {
        if k :| 0 <= k < |sel| && sel[k].code == c {
          FindAt(sel, k);
          FindAt(r, k);
        }
      }
  }

  // ---------------------------------------------------------------------
  // Initial state and the two buttons

  /** `data.forEach(type => initialSelected[type.type] = 0)`. */
  function Initial(types: seq<TicketType>): (sel: Selection)
    ensures WellKeyed(sel)
    ensures forall k :: 0 <= k < |sel| ==> sel[k].quantity == 0
    decreases |types|
  {
    if |types| == 0 then []
    else
      var prev := Initial(types[..|types| - 1]);
      PutGet(prev, types[|types| - 1].code, 0);
      Put(prev, types[|types| - 1].code, 0)
  }

  /** Every fetched ticket type starts at quantity 0, and the selection
      has no other keys. */
  lemma {:induction false} InitialZero(types: seq<TicketType>)
    ensures forall c :: Get(Initial(types), c) == if FindByCode(types, c).Some? then Some(0) else None
    decreases |types|
  {
    if |types| > 0 {
      var n := |types| - 1;
      var prev := Initial(types[..n]);
      InitialZero(types[..n]);
      PutGet(prev, types[n].code, 0);
      forall c
        ensures FindByCode(types, c).Some? <==> FindByCode(types[..n], c).Some? || types[n].code == c
      {
        if FindByCode(types[..n], c).Some? {
          assert types[FindByCode(types[..n], c).value].code == c;
        }
        if FindByCode(types, c).Some? && FindByCode(types, c).value < n {
          assert types[..n][FindByCode(types, c).value].code == c;
        }
      }
    }
  }

  function Max(a: int, b: int): int { if a >= b then a else b }
  function Min(a: int, b: int): int { if a <= b then a else b }

  /** `handleDecreaseQuantity` (SelectTickets.jsx:60-65). The button is
      disabled unless the type has a positive quantity (line 217), so the
      key is always present. */
  function Decrease(sel: Selection, code: string): (r: Selection)
    requires Get(sel, code).Some?
  {
    Put(sel, code, Max(0, Get(sel, code).value - 1))
  }

  /** `handleIncreaseQuantity` (SelectTickets.jsx:67-72): a missing key
      counts as 0. */
  function Increase(sel: Selection, code: string, maxQuantity: int): (r: Selection)
  {
    var q := if Get(sel, code).Some? then Get(sel, code).value else 0;
    Put(sel, code, Min(maxQuantity, q + 1))
  }

  /** Decrease lowers the quantity by one but never below 0 and touches
      no other key. */
  lemma DecreaseEffect(sel: Selection, code: string)
    requires WellKeyed(sel) && Get(sel, code).Some?
    ensures WellKeyed(Decrease(sel, code))
    ensures Get(sel, code).value > 0 ==> Get(Decrease(sel, code), code) == Some(Get(sel, code).value - 1)
    ensures Get(sel, code).value <= 0 ==> Get(Decrease(sel, code), code) == Some(0)
    ensures forall c :: c != code ==> Get(Decrease(sel, code), c) == Get(sel, c)
  {
    PutGet(sel, code, Max(0, Get(sel, code).value - 1));
  }

  /** Increase raises the quantity by one but never above the maximum and
      touches no other key. */
  lemma IncreaseEffect(sel: Selection, code: string, maxQuantity: int)
    requires WellKeyed(sel)
    ensures WellKeyed(Increase(sel, code, maxQuantity))
    ensures var q := if Get(sel, code).Some? then Get(sel, code).value else 0;
      && (q < maxQuantity ==> Get(Increase(sel, code, maxQuantity), code) == Some(q + 1))
      && (q >= maxQuantity ==> Get(Increase(sel, code, maxQuantity), code) == Some(maxQuantity))
    ensures forall c :: c != code ==> Get(Increase(sel, code, maxQuantity), c) == Get(sel, c)
  {
    var q := if Get(sel, code).Some? then Get(sel, code).value else 0;
    PutGet(sel, code, Min(maxQuantity, q + 1));
  }

  /** A decrease undoes an increase that was not clamped. */
  lemma DecreaseUndoesIncrease(sel: Selection, code: string, maxQuantity: int)
    requires WellKeyed(sel) && Get(sel, code).Some?
    requires 0 <= Get(sel, code).value < maxQuantity
    ensures forall c :: Get(Decrease(Increase(sel, code, maxQuantity), code), c) == Get(sel, c)
  {
    IncreaseEffect(sel, code, maxQuantity);
    var up := Increase(sel, code, maxQuantity);
    DecreaseEffect(up, code);
  }

  /** The first catalogue entry with this type code (`ticketTypes.find`). */
  function FindByCode(types: seq<TicketType>, code: string): (r: Option<nat>)
    ensures r.Some? ==> r.value < |types| && types[r.value].code == code
    ensures r.None? ==> forall k :: 0 <= k < |types| ==> types[k].code != code
    decreases |types|
  {
    if |types| == 0 then None
    else if types[0].code == code then Some(0)
    else
      var r := FindByCode(types[1..], code);
      if r.Some? then Some(r.value + 1) else None
  }

  /** Every selected type is in the catalogue with a quantity between 0 and
      its availability. */
  predicate WithinCapacity(sel: Selection, types: seq<TicketType>)
  {
    forall k :: 0 <= k < |sel| ==>
      && FindByCode(types, sel[k].code).Some?
      && 0 <= sel[k].quantity <= types[FindByCode(types, sel[k].code).value].availableQuantity
  }

  /** The page starts within capacity when no capacity is negative. */
  lemma InitialWithin(types: seq<TicketType>)
    requires forall k :: 0 <= k < |types| ==> types[k].availableQuantity >= 0
    ensures WithinCapacity(Initial(types), types)
  {
    var sel := Initial(types);
    InitialZero(types);
    forall k | 0 <= k < |sel| {
      FindAt(sel, k);
    }
  }

  /** The increase button passes the type's own availability as maximum;
      from within capacity it stays within capacity. */
  lemma IncreaseWithin(sel: Selection, types: seq<TicketType>, code: string)
    requires WellKeyed(sel) && WithinCapacity(sel, types)
    requires FindByCode(types, code).Some? && types[FindByCode(types, code).value].availableQuantity >= 0
    ensures WithinCapacity(Increase(sel, code, types[FindByCode(types, code).value].availableQuantity), types)
  {
    var m := types[FindByCode(types, code).value].availableQuantity;
    var r := Increase(sel, code, m);
    IncreaseEffect(sel, code, m);
    forall k | 0 <= k < |r|
      ensures FindByCode(types, r[k].code).Some?
      ensures 0 <= r[k].quantity <= types[FindByCode(types, r[k].code).value].availableQuantity
    {
      var c := r[k].code;
      assert Find(r, c).Some?;
      assert Find(r, c).value == k;
      if c != code {
        var j := Find(sel, c).value;
        assert Get(sel, c) == Some(r[k].quantity);
        assert sel[j].code == c;
      } else if Get(sel, code).Some? {
        var j := Find(sel, code).value;
        assert sel[j].code == code;
      }
    }
  }

  /** From within capacity a decrease stays within capacity. */
  lemma DecreaseWithin(sel: Selection, types: seq<TicketType>, code: string)
    requires WellKeyed(sel) && WithinCapacity(sel, types) && Get(sel, code).Some?
    ensures WithinCapacity(Decrease(sel, code), types)
  {
    var r := Decrease(sel, code);
    DecreaseEffect(sel, code);
    forall k | 0 <= k < |r|
      ensures FindByCode(types, r[k].code).Some?
      ensures 0 <= r[k].quantity <= types[FindByCode(types, r[k].code).value].availableQuantity
    {
      var c := r[k].code;
      assert Find(r, c).Some?;
      assert Find(r, c).value == k;
      var j := Find(sel, c).value;
      assert sel[j].code == c;
    }
  }

  // ---------------------------------------------------------------------
  // Total price and the request body

  /** `ticketType?.price || 0`: a type missing from the catalogue costs 0. */
  function PriceOf(types: seq<TicketType>, code: string): int
  {
    match FindByCode(types, code)
    case None => 0
    case Some(i) => types[i].price
  }

  /** `totalPrice` (SelectTickets.jsx:74-77). */
  function TotalPrice(sel: Selection, types: seq<TicketType>): int
    decreases |sel|
  {
    if |sel| == 0 then 0
    else TotalPrice(sel[..|sel| - 1], types) + PriceOf(types, sel[|sel| - 1].code) * sel[|sel| - 1].quantity
  }

  /** Nothing selected costs nothing. */
  lemma {:induction false} TotalPriceZero(sel: Selection, types: seq<TicketType>)
    requires forall k :: 0 <= k < |sel| ==> sel[k].quantity == 0
    ensures TotalPrice(sel, types) == 0
    decreases |sel|
  {
    if |sel| > 0 {
      TotalPriceZero(sel[..|sel| - 1], types);
    }
  }

  /** What the booking page submits: the request lines, or the error it
      raises first — a TypeError when a selected type is missing from the
      catalogue (`ticketType.price`), or "Please select at least one
      ticket". */
  datatype Submission = Request(lines: seq<RequestLine>) | UnknownType | NothingSelected

  /** `Object.entries(selectedTickets).filter(([_, q]) => q > 0)`. */
  function Positive(sel: Selection): (pos: Selection)
    ensures forall k :: 0 <= k < |pos| ==> pos[k].quantity > 0
    decreases |sel|
  {
    if |sel| == 0 then []
    else
      var prev := Positive(sel[..|sel| - 1]);
      if sel[|sel| - 1].quantity > 0 then prev + [sel[|sel| - 1]] else prev
  }

  /** The kept entries are those with a positive quantity. */
  lemma {:induction false} PositiveMembers(sel: Selection)
    ensures forall e :: e in Positive(sel) <==> e in sel && e.quantity > 0
    decreases |sel|
  {
    if |sel| > 0 {
      var n := |sel| - 1;
      PositiveMembers(sel[..n]);
      assert sel == sel[..n] + [sel[n]];
    }
  }

  /** The kept entries keep their selection order. */
  lemma {:induction false} PositiveInOrder(sel: Selection)
    ensures IsSubsequence(Positive(sel), sel)
    decreases |sel|
  {
    if |sel| == 0 {
      assert Embeds([], [], sel);
    } else {
      var n := |sel| - 1;
      var prev := Positive(sel[..n]);
      var keep := sel[n].quantity > 0;
      assert Positive(sel) == if keep then prev + [sel[n]] else prev;
      PositiveInOrder(sel[..n]);
      SubsequenceSnoc(prev, sel[..n], sel[n], keep);
      assert sel[..n] + [sel[n]] == sel;
    }
  }

  /** `.map(([type, quantity]) => ({ type, quantity, price: ticketType.price }))`
      over the kept entries; None when one of them is not in the catalogue. */
  function Priced(pos: Selection, types: seq<TicketType>): (r: Option<seq<RequestLine>>)
    ensures r.Some? <==> forall k :: 0 <= k < |pos| ==> FindByCode(types, pos[k].code).Some?
    ensures r.Some? ==> |r.value| == |pos| && forall k :: 0 <= k < |pos| ==>
      r.value[k] == RequestLine(pos[k].code, pos[k].quantity, types[FindByCode(types, pos[k].code).value].price)
    decreases |pos|
  {
    if |pos| == 0 then Some([])
    else
      var n := |pos| - 1;
      var prev := Priced(pos[..n], types);
      assert forall k :: 0 <= k < n ==> pos[..n][k] == pos[k];
      match FindByCode(types, pos[n].code)
      case None => None
      case Some(i) =>
        if prev.None? then None
        else Some(prev.value + [RequestLine(pos[n].code, pos[n].quantity, types[i].price)])
  }

  /** The line-item construction of `bookTickets` (SelectTickets.jsx:84-97). */
  function BuildRequest(sel: Selection, types: seq<TicketType>): Submission
  {
    match Priced(Positive(sel), types)
    case None => UnknownType
    case Some(lines) => if |lines| == 0 then NothingSelected else Request(lines)
  }

  /** The error for an empty selection is raised exactly when no quantity
      is positive (and no selected type is unknown). */
  lemma NothingSelectedIff(sel: Selection, types: seq<TicketType>)
    ensures BuildRequest(sel, types) == NothingSelected <==> forall k :: 0 <= k < |sel| ==> sel[k].quantity <= 0
  {
    PositiveMembers(sel);
    if forall k :: 0 <= k < |sel| ==> sel[k].quantity <= 0 {
      if |Positive(sel)| > 0 {
        assert Positive(sel)[0] in sel;
      }
    } else {
      var k :| 0 <= k < |sel| && sel[k].quantity > 0;
      assert sel[k] in Positive(sel);
    }
  }

  /** A submitted request has one line per positively selected type, with
      the catalogue's price; from a well-keyed selection its types are
      distinct and its quantities positive, as the booking endpoint needs. */
  lemma RequestLines(sel: Selection, types: seq<TicketType>)
    requires WellKeyed(sel)
    requires BuildRequest(sel, types).Request?
    ensures var lines := BuildRequest(sel, types).lines;
      && |lines| == |Positive(sel)| > 0
      && (forall k :: 0 <= k < |lines| ==> lines[k].quantity > 0 && lines[k].price == PriceOf(types, lines[k].code))
      && DistinctCodes(lines)
  {
    var pos := Positive(sel);
    var lines := BuildRequest(sel, types).lines;
    PositiveInOrder(sel);
    var idx :| Embeds(idx, pos, sel);
    forall k, l | 0 <= k < l < |lines|
      ensures lines[k].code != lines[l].code
    {
      assert lines[k].code == sel[idx[k]].code && lines[l].code == sel[idx[l]].code;
    }
  }

  /** The amount the page sends with the request is the request's own
      total when no quantity is negative. */
  lemma {:induction false} TotalPriceOfRequest(sel: Selection, types: seq<TicketType>)
    requires forall k :: 0 <= k < |sel| ==> sel[k].quantity >= 0
    ensures TotalPrice(sel, types) == TotalPrice(Positive(sel), types)
    decreases |sel|
  {
    if |sel| > 0 {
      var n := |sel| - 1;
      TotalPriceOfRequest(sel[..n], types);
      var prev := Positive(sel[..n]);
      if sel[n].quantity > 0 {
        assert (prev + [sel[n]])[..|prev|] == prev;
      }
    }
  }
}
