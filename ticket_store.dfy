/** The ticket cart store: an ordered list of cart lines, one per event id,
    each carrying the quantity the visitor wants and a snapshot of the
    event's capacity (`totalTickets`) and sales (`bookedTickets`). The five
    actions keep every quantity within `totalTickets - bookedTickets`.

    Each action is a pure function from the old list to the new one (the
    source computes it as one expression handed to the store's `set`), and
    the class `CartStore` holds the list and replaces it in its methods. */
module TicketStore {
  import opened JsValues

  type EventId = string

  /** One line of the cart. `extras` stands for the descriptive fields
      (title, date, location, ...) the store copies without reading them. */
  datatype CartLine = CartLine(
    id: EventId,
    quantity: int,
    pricePerTicket: int,
    totalTickets: int,
    bookedTickets: int,
    extras: map<string, string>)

  /** The record a caller hands to `setEventInCart`. */
  datatype EventDetails = EventDetails(
    id: EventId,
    quantity: NumInput,
    pricePerTicket: NumInput,
    totalTickets: NumInput,
    bookedTickets: NumInput,
    extras: map<string, string>)

  /** The price used when the caller gives none (or a falsy one). */
  const DefaultPrice := 45

  // ---------------------------------------------------------------------
  // Availability and the cart invariant
  // ---------------------------------------------------------------------

  /** Tickets left according to a line's stored snapshot. */
  function Available(l: CartLine): int {
    l.totalTickets - l.bookedTickets
  }

  /** Tickets left according to a caller's record, after coercing both
      counts with `parseFloat(x) || 0`. */
  function RequestedAvailable(d: EventDetails): int {
    OrZero(d.totalTickets) - OrZero(d.bookedTickets)
  }

  predicate LineValid(l: CartLine) {
    1 <= l.quantity <= Available(l)
  }

  predicate UniqueIds(items: seq<CartLine>) {
    forall i, j :: 0 <= i < j < |items| ==> items[i].id != items[j].id
  }

  /** Every line holds between 1 and its available tickets, and no two
      lines share an id. */
  predicate CartValid(items: seq<CartLine>) {
    && (forall i :: 0 <= i < |items| ==> LineValid(items[i]))
    && UniqueIds(items)
  }

  // ---------------------------------------------------------------------
  // Lookup
  // ---------------------------------------------------------------------

  /** `items.findIndex(item => item.id === id)`: the first index holding
      `id`, or -1. */
  function FindIndex(items: seq<CartLine>, id: EventId): (k: int)
    ensures -1 <= k < |items|
    ensures k >= 0 ==> items[k].id == id
    ensures k >= 0 ==> forall j :: 0 <= j < k ==> items[j].id != id
    ensures k == -1 <==> forall j :: 0 <= j < |items| ==> items[j].id != id
  {
    if |items| == 0 then -1
    else if items[0].id == id then 0
    else
      var k := FindIndex(items[1..], id);
      if k < 0 then -1 else k + 1
  }

  /** The first index holding `id` is the one `FindIndex` reports. */
  lemma {:induction false} FindIndexIsFirst(items: seq<CartLine>, id: EventId, k: int)
    requires 0 <= k < |items| && items[k].id == id
    requires forall j :: 0 <= j < k ==> items[j].id != id
    ensures FindIndex(items, id) == k
  {
    if k > 0 {
      FindIndexIsFirst(items[1..], id, k - 1);
    }
  }

  // ---------------------------------------------------------------------
  // setEventInCart
  // ---------------------------------------------------------------------

  /** The requested quantity after `Math.max(1, quantity || 1)` and the
      clamp down to the available tickets. */
  function ValidatedQuantity(requested: NumInput, available: int): (q: int)
    ensures available >= 1 ==> 1 <= q <= available
    ensures available >= 1 && requested.Number? && 1 <= requested.value <= available
            ==> q == requested.value
    ensures available >= 1 && requested.Number? && requested.value > available
            ==> q == available
    ensures available >= 1 && !(requested.Number? && requested.value >= 1) ==> q == 1
  {
    var v := Max(1, OrDefault(requested, 1));
    if v > available then available else v
  }

  /** The line appended for an event not yet in the cart. */
  function NewLine(d: EventDetails): (l: CartLine)
    ensures l.id == d.id && l.extras == d.extras
    ensures Available(l) == RequestedAvailable(d)
    ensures RequestedAvailable(d) > 0 ==> LineValid(l)
  {
    CartLine(d.id,
             ValidatedQuantity(d.quantity, RequestedAvailable(d)),
             OrDefault(d.pricePerTicket, DefaultPrice),
             OrZero(d.totalTickets),
             OrZero(d.bookedTickets),
             d.extras)
  }

  /** An existing line with its quantity, price and snapshot overwritten
      from the caller's record; its id and other fields are kept. */
  function Refreshed(l: CartLine, d: EventDetails): (r: CartLine)
    ensures r.id == l.id && r.extras == l.extras
    ensures Available(r) == RequestedAvailable(d)
    ensures RequestedAvailable(d) > 0 ==> LineValid(r)
  {
    l.(quantity := ValidatedQuantity(d.quantity, RequestedAvailable(d)),
       pricePerTicket := OrDefault(d.pricePerTicket, DefaultPrice),
       totalTickets := OrZero(d.totalTickets),
       bookedTickets := OrZero(d.bookedTickets))
  }

  /** The list after `setEventInCart(d)`. A sold-out event empties the
      whole cart. */
  function Upserted(items: seq<CartLine>, d: EventDetails): (r: seq<CartLine>)
    ensures RequestedAvailable(d) <= 0 ==> r == []
    ensures RequestedAvailable(d) > 0 ==>
              && |r| == (if FindIndex(items, d.id) >= 0 then |items| else |items| + 1)
              && (forall i :: 0 <= i < |items| ==> r[i].id == items[i].id)
              && FindIndex(r, d.id) >= 0
  {
    if RequestedAvailable(d) <= 0 then []
    else
      var k := FindIndex(items, d.id);
      if k > -1 then items[k := Refreshed(items[k], d)]
      else
        var r := items + [NewLine(d)];
        assert r[|items|].id == d.id;
        r
  }

  lemma SetEventSoldOutClearsCart(items: seq<CartLine>, d: EventDetails)
    requires RequestedAvailable(d) <= 0
    ensures Upserted(items, d) == []
  {
  }

  /** After an upsert of an event that is not sold out, the cart holds a
      line for it whose quantity is the clamped request. */
  lemma SetEventClampsQuantity(items: seq<CartLine>, d: EventDetails)
    requires RequestedAvailable(d) > 0
    ensures var r := Upserted(items, d);
            var k := FindIndex(r, d.id);
            && k >= 0
            && 1 <= r[k].quantity <= RequestedAvailable(d)
            && r[k].quantity == ValidatedQuantity(d.quantity, RequestedAvailable(d))
            && Available(r[k]) == RequestedAvailable(d)
  {
    var k := FindIndex(items, d.id);
    var r := Upserted(items, d);
    if k > -1 {
      assert r[k].id == d.id;
      FindIndexIsFirst(r, d.id, k);
    } else {
      assert r[|items|].id == d.id;
      FindIndexIsFirst(r, d.id, |items|);
    }
  }

  /** Upsert of an id already present: same length, same position, only
      quantity, price and snapshot of that line replaced. */
  lemma SetEventUpdatesInPlace(items: seq<CartLine>, d: EventDetails)
    requires RequestedAvailable(d) > 0
    requires FindIndex(items, d.id) >= 0
    ensures var r := Upserted(items, d);
            var k := FindIndex(items, d.id);
            && |r| == |items|
            && r[k].id == items[k].id
            && r[k].extras == items[k].extras
            && r[k].quantity == ValidatedQuantity(d.quantity, RequestedAvailable(d))
            && r[k].pricePerTicket == OrDefault(d.pricePerTicket, DefaultPrice)
            && r[k].totalTickets == OrZero(d.totalTickets)
            && r[k].bookedTickets == OrZero(d.bookedTickets)
            && (forall i :: 0 <= i < |items| && i != k ==> r[i] == items[i])
  {
  }

  /** Upsert of a new id: exactly one line appended, earlier lines kept; a
      falsy price becomes 45, non-numeric counts become 0. */
  lemma SetEventAppendsNew(items: seq<CartLine>, d: EventDetails)
    requires RequestedAvailable(d) > 0
    requires forall i :: 0 <= i < |items| ==> items[i].id != d.id
    ensures var r := Upserted(items, d);
            && |r| == |items| + 1
            && r[..|items|] == items
            && r[|items|].id == d.id
            && r[|items|].extras == d.extras
            && r[|items|].quantity == ValidatedQuantity(d.quantity, RequestedAvailable(d))
            && (Truthy(d.pricePerTicket) ==> r[|items|].pricePerTicket == d.pricePerTicket.value)
            && (!Truthy(d.pricePerTicket) ==> r[|items|].pricePerTicket == 45)
            && r[|items|].totalTickets == OrZero(d.totalTickets)
            && r[|items|].bookedTickets == OrZero(d.bookedTickets)
            && (!d.totalTickets.Number? ==> r[|items|].totalTickets == 0)
            && (!d.bookedTickets.Number? ==> r[|items|].bookedTickets == 0)
  {
    assert FindIndex(items, d.id) == -1;
  }

  lemma SetEventPreservesValid(items: seq<CartLine>, d: EventDetails)
    requires CartValid(items)
    ensures CartValid(Upserted(items, d))
  {
    var r := Upserted(items, d);
    if RequestedAvailable(d) > 0 {
      var k := FindIndex(items, d.id);
      if k > -1 {
        assert forall i :: 0 <= i < |r| ==> r[i].id == items[i].id;
      } else {
        assert forall i :: 0 <= i < |items| ==> r[i] == items[i];
      }
    }
  }

  /** Applying `setEventInCart` twice with the same record gives the same
      list as applying it once. */
  lemma SetEventIdempotent(items: seq<CartLine>, d: EventDetails)
    ensures Upserted(Upserted(items, d), d) == Upserted(items, d)
  {
    if RequestedAvailable(d) > 0 {
      var r := Upserted(items, d);
      var k := FindIndex(items, d.id);
      if k > -1 {
        FindIndexIsFirst(r, d.id, k);
        assert Refreshed(r[k], d) == r[k];
      } else {
        FindIndexIsFirst(r, d.id, |items|);
        assert Refreshed(r[|items|], d) == r[|items|];
      }
    }
  }

  // ---------------------------------------------------------------------
  // incrementTicketQuantity
  // ---------------------------------------------------------------------

  /** `items.map(item => item.id === id ? {...item, quantity: q} : item)` */
  function WithQuantity(items: seq<CartLine>, id: EventId, q: int): seq<CartLine> {
    seq(|items|, i requires 0 <= i < |items| =>
      if items[i].id == id then items[i].(quantity := q) else items[i])
  }

  /** The list after `incrementTicketQuantity(id)`: the first line with
      `id` decides, against its own snapshot, whether one more fits. */
  function Incremented(items: seq<CartLine>, id: EventId): (r: seq<CartLine>)
    ensures |r| == |items|
    ensures forall i :: 0 <= i < |items| ==>
              r[i] == items[i] || (items[i].id == id && r[i] == items[i].(quantity := r[i].quantity))
    ensures var k := FindIndex(items, id);
            k >= 0 ==> r[k] == items[k] || r[k].quantity == items[k].quantity + 1 <= Available(items[k])
  {
    var k := FindIndex(items, id);
    if k < 0 then items
    else
      var newQuantity := items[k].quantity + 1;
      if newQuantity > Available(items[k]) then items
      else WithQuantity(items, id, newQuantity)
  }

  lemma IncrementRejected(items: seq<CartLine>, id: EventId)
    requires var k := FindIndex(items, id);
             k < 0 || items[k].quantity + 1 > Available(items[k])
    ensures Incremented(items, id) == items
  {
  }

  /** When one more ticket fits, exactly that line gains one ticket. */
  lemma IncrementRaisesByOne(items: seq<CartLine>, id: EventId)
    requires UniqueIds(items)
    requires var k := FindIndex(items, id);
             k >= 0 && items[k].quantity + 1 <= Available(items[k])
    ensures var r := Incremented(items, id);
            var k := FindIndex(items, id);
            && |r| == |items|
            && r[k] == items[k].(quantity := items[k].quantity + 1)
            && (forall i :: 0 <= i < |items| && i != k ==> r[i] == items[i])
  {
    var k := FindIndex(items, id);
    forall i | 0 <= i < |items| && i != k
      ensures items[i].id != id
    {
      if i > k {
        assert items[k].id != items[i].id;
      }
    }
  }

  lemma IncrementPreservesValid(items: seq<CartLine>, id: EventId)
    requires CartValid(items)
    ensures CartValid(Incremented(items, id))
  {
    var k := FindIndex(items, id);
    if k >= 0 && items[k].quantity + 1 <= Available(items[k]) {
      IncrementRaisesByOne(items, id);
    }
  }

  // ---------------------------------------------------------------------
  // decrementTicketQuantity
  // ---------------------------------------------------------------------

  /** `items.map(item => item.id === id ? {...item, quantity: Math.max(1, item.quantity - 1)} : item)` */
  function Lowered(items: seq<CartLine>, id: EventId): (r: seq<CartLine>)
    ensures |r| == |items|
    ensures forall i :: 0 <= i < |items| ==> r[i] == items[i].(quantity := r[i].quantity)
    ensures forall i :: 0 <= i < |items| && items[i].quantity >= 1 ==>
              1 <= r[i].quantity <= items[i].quantity
    ensures forall i :: 0 <= i < |items| && items[i].id != id ==> r[i] == items[i]
  {
    seq(|items|, i requires 0 <= i < |items| =>
      if items[i].id == id then items[i].(quantity := Max(1, items[i].quantity - 1))
      else items[i])
  }

  /** `items.filter(item => item.quantity > 0)` */
  function KeepPositive(items: seq<CartLine>): (r: seq<CartLine>)
    ensures |r| <= |items|
    ensures forall l :: l in r <==> l in items && l.quantity > 0
  {
    if |items| == 0 then []
    else if items[0].quantity > 0 then [items[0]] + KeepPositive(items[1..])
    else KeepPositive(items[1..])
  }

  lemma {:induction false} KeepPositiveKeepsAll(items: seq<CartLine>)
    requires forall i :: 0 <= i < |items| ==> items[i].quantity > 0
    ensures KeepPositive(items) == items
  {
    if |items| > 0 {
      KeepPositiveKeepsAll(items[1..]);
      assert [items[0]] + items[1..] == items;
    }
  }

  /** The list after `decrementTicketQuantity(id)`. */
  function Decremented(items: seq<CartLine>, id: EventId): (r: seq<CartLine>)
    ensures |r| <= |items|
    ensures (forall i :: 0 <= i < |items| ==> items[i].quantity > 0) ==> r == Lowered(items, id)
  {
    var lowered := Lowered(items, id);
    if forall i :: 0 <= i < |items| ==> items[i].quantity > 0 then
      KeepPositiveKeepsAll(lowered);
      KeepPositive(lowered)
    else
      KeepPositive(lowered)
  }

  /** No line with a positive quantity is ever removed by a decrement: the
      lowered quantity is at least 1 for the matching lines, and the others
      are unchanged. */
  lemma DecrementKeepsPositiveLines(items: seq<CartLine>, id: EventId, i: int)
    requires 0 <= i < |items| && items[i].quantity > 0
    ensures Lowered(items, id)[i] in Decremented(items, id)
  {
  }

  /** On a cart whose quantities are positive, a decrement keeps the length
      and sets each matching line to `max(1, q - 1)`: a line at 1 stays at 1. */
  lemma DecrementLowersToFloor(items: seq<CartLine>, id: EventId)
    requires forall i :: 0 <= i < |items| ==> items[i].quantity > 0
    ensures var r := Decremented(items, id);
            && |r| == |items|
            && (forall i :: 0 <= i < |items| && items[i].id == id ==>
                  r[i] == items[i].(quantity := Max(1, items[i].quantity - 1)))
            && (forall i :: 0 <= i < |items| && items[i].id == id && items[i].quantity == 1 ==>
                  r[i] == items[i])
            && (forall i :: 0 <= i < |items| && items[i].id != id ==> r[i] == items[i])
  {
    KeepPositiveKeepsAll(Lowered(items, id));
  }

  lemma DecrementPreservesValid(items: seq<CartLine>, id: EventId)
    requires CartValid(items)
    ensures CartValid(Decremented(items, id))
  {
    DecrementLowersToFloor(items, id);
  }

  // ---------------------------------------------------------------------
  // removeEventFromCart and clearCart
  // ---------------------------------------------------------------------

  /** The list after `removeEventFromCart(id)`:
      `items.filter(item => item.id !== id)`. */
  function Removed(items: seq<CartLine>, id: EventId): (r: seq<CartLine>)
    ensures |r| <= |items|
    ensures forall l :: l in r <==> l in items && l.id != id
  {
    if |items| == 0 then []
    else if items[0].id != id then [items[0]] + Removed(items[1..], id)
    else Removed(items[1..], id)
  }

  lemma {:induction false} RemoveUnknownIsNoOp(items: seq<CartLine>, id: EventId)
    requires FindIndex(items, id) == -1
    ensures Removed(items, id) == items
  {
    if |items| > 0 {
      assert FindIndex(items[1..], id) == -1;
      RemoveUnknownIsNoOp(items[1..], id);
      assert [items[0]] + items[1..] == items;
    }
  }

  /** On a cart with unique ids, removal cuts out exactly the matching line
      and keeps the others in their order. */
  lemma {:induction false} RemoveCutsOutLine(items: seq<CartLine>, id: EventId, k: nat)
    requires UniqueIds(items)
    requires k < |items| && items[k].id == id
    ensures Removed(items, id) == items[..k] + items[k + 1..]
  {
    var tail := items[1..];
    if k == 0 {
      forall j | 0 <= j < |tail|
        ensures tail[j].id != id
      {
        assert tail[j] == items[j + 1];
      }
      RemoveUnknownIsNoOp(tail, id);
    } else {
      assert items[0].id != id;
      assert UniqueIds(tail) by {
        forall i, j | 0 <= i < j < |tail|
          ensures tail[i].id != tail[j].id
        {
          assert tail[i] == items[i + 1] && tail[j] == items[j + 1];
        }
      }
      RemoveCutsOutLine(tail, id, k - 1);
      assert Removed(items, id) == [items[0]] + Removed(tail, id);
      CutOutOfTail(items, k);
    }
  }

  lemma {:induction false} RemovePreservesValid(items: seq<CartLine>, id: EventId)
    requires CartValid(items)
    ensures CartValid(Removed(items, id))
  {
    if |items| > 0 {
      RemovePreservesValid(items[1..], id);
      if items[0].id != id {
        var r := Removed(items, id);
        var rest := Removed(items[1..], id);
        assert r == [items[0]] + rest;
        forall j | 0 < j < |r|
          ensures r[0].id != r[j].id
        {
          assert r[j] in items;
        }
      }
    }
  }

  // ---------------------------------------------------------------------
  // Any sequence of actions
  // ---------------------------------------------------------------------

  datatype Action =
    | SetEvent(details: EventDetails)
    | Increment(incId: EventId)
    | Decrement(decId: EventId)
    | Remove(remId: EventId)
    | Clear

  /** One action applied to the list; each keeps the cart invariant. */
  function Apply(items: seq<CartLine>, a: Action): (r: seq<CartLine>)
    ensures CartValid(items) ==> CartValid(r)
  {
    match a
    case SetEvent(d) =>
      var r := Upserted(items, d);
      if CartValid(items) then SetEventPreservesValid(items, d); r else r
    case Increment(id) =>
      var r := Incremented(items, id);
      if CartValid(items) then IncrementPreservesValid(items, id); r else r
    case Decrement(id) =>
      var r := Decremented(items, id);
      if CartValid(items) then DecrementPreservesValid(items, id); r else r
    case Remove(id) =>
      var r := Removed(items, id);
      if CartValid(items) then RemovePreservesValid(items, id); r else r
    case Clear => []
  }

  /** The actions applied in turn. Starting from a valid cart (the empty
      cart is one), every sequence of the five actions leaves quantities
      within availability and ids unique. */
  function Run(items: seq<CartLine>, actions: seq<Action>): (r: seq<CartLine>)
    ensures CartValid(items) ==> CartValid(r)
    decreases |actions|
  {
    if |actions| == 0 then items else Run(Apply(items, actions[0]), actions[1..])
  }

  // ---------------------------------------------------------------------
  // Two walks through the store
  // ---------------------------------------------------------------------

  /** Two tickets left of 100: a request for 5 is cut to 2, a further
      increment is refused, and two decrements leave the line at 1 rather
      than removing it. */
  lemma LastTicketIsNeverDecrementedAway(extras: map<string, string>)
    ensures var d := EventDetails("A", Number(5), Missing, Number(100), Number(98), extras);
            var added := Upserted([], d);
            && added == [CartLine("A", 2, 45, 100, 98, extras)]
            && Incremented(added, "A") == added
            && Decremented(added, "A") == [CartLine("A", 1, 45, 100, 98, extras)]
            && Decremented(Decremented(added, "A"), "A") == [CartLine("A", 1, 45, 100, 98, extras)]
  {
    var added := [CartLine("A", 2, 45, 100, 98, extras)];
    DecrementLowersToFloor(added, "A");
    var once := Decremented(added, "A");
    DecrementLowersToFloor(once, "A");
  }

  /** Adding a sold-out event to a cart that holds another event drops
      that other event too. */
  lemma SoldOutEventDropsOtherLines(other: CartLine, extras: map<string, string>)
    requires CartValid([other]) && other.id != "B"
    ensures var d := EventDetails("B", Number(1), Missing, Number(10), Number(10), extras);
            Upserted([other], d) == []
  {
  }

  // ---------------------------------------------------------------------
  // The store
  // ---------------------------------------------------------------------

  class CartStore {
    var items: seq<CartLine>

    ghost predicate Valid()
      reads this
    {
      CartValid(items)
    }

    constructor ()
      ensures items == [] && Valid()
    {
      items := [];
    }

    method SetEventInCart(d: EventDetails)
      modifies this
      ensures items == Upserted(old(items), d)
      ensures old(Valid()) ==> Valid()
      ensures RequestedAvailable(d) <= 0 ==> items == []
    {
      if CartValid(items) {
        SetEventPreservesValid(items, d);
      }
      items := Upserted(items, d);
    }

    method IncrementTicketQuantity(id: EventId)
      modifies this
      ensures items == Incremented(old(items), id)
      ensures old(Valid()) ==> Valid()
    {
      if CartValid(items) {
        IncrementPreservesValid(items, id);
      }
      items := Incremented(items, id);
    }

    method DecrementTicketQuantity(id: EventId)
      modifies this
      ensures items == Decremented(old(items), id)
      ensures old(Valid()) ==> Valid() && |items| == |old(items)|
    {
      if CartValid(items) {
        DecrementPreservesValid(items, id);
        DecrementLowersToFloor(items, id);
      }
      items := Decremented(items, id);
    }

    method RemoveEventFromCart(id: EventId)
      modifies this
      ensures items == Removed(old(items), id)
      ensures old(Valid()) ==> Valid()
    {
      if CartValid(items) {
        RemovePreservesValid(items, id);
      }
      items := Removed(items, id);
    }

    method ClearCart()
      modifies this
      ensures items == [] && Valid()
    {
      items := [];
    }
  }
}
