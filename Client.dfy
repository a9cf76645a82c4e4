/** The seat-availability and action-gating expressions of the client's render
    (App.js): the seat grid shown for the selected bus, the bus label and the
    payment label of a booking row, whether a row offers Cancel and Pay, and
    the guard at the start of `bookSeat`. Buses and bookings are records
    fetched as JSON, so their fields are arbitrary values. */
module Client {
  import opened Js

  datatype ClientBus = ClientBus(id: Value, name: Value, totalSeats: Value)

  datatype Booking = Booking(busId: Value, seatNumber: Value, status: Value, paymentStatus: Value)

  /** One button of the seat grid. */
  datatype Seat = Seat(number: nat, disabled: bool)

  /** What `bookSeat` does: show an alert and stop, or send a booking request. */
  datatype SeatRequest = SelectFirst | Request(busId: Value, seatNumber: Value)

  /** `Array(n).length`, or `None` where `Array(n)` throws a RangeError:
      a number must be an integer in [0, 2^32 - 1]; any other single argument
      makes a one-element array. */
  function ArrayLength(n: Value): Option<nat> {
    if !n.Num? then Some(1)
    else if n.n == n.n.Floor as real && 0.0 <= n.n <= 4294967295.0 then Some(n.n.Floor)
    else None
  }

  /** ToUint32 of section 7.1.7 of ECMA-262 for a finite number: truncate
      toward zero, then reduce modulo 2^32 (the mathematical, never negative,
      modulo, which is Dafny's `%` on `int`). */
  function ToUint32(x: real): int {
    var truncated := if x >= 0.0 then x.Floor else -((-x).Floor);
    truncated % 4294967296
  }

  /** The length rule of the `Array(len)` constructor, section 23.1.1.1 of
      ECMA-262, for a single argument: a non-Number gives the one-element
      array `[len]`; a Number gives length `ToUint32(len)`, and the call
      throws a RangeError unless that equals `len`. */
  function ArrayConstructorLength(len: Value): Option<nat> {
    if !len.Num? then Some(1)
    else
      var intLen := ToUint32(len.n);
      if intLen as real == len.n then Some(intLen) else None
  }

  /** The range test used by the grid is the constructor's length rule. */
  lemma ArrayLengthIsConstructorRule(n: Value)
    ensures ArrayLength(n) == ArrayConstructorLength(n)
  {
  }

  /** A booking holds its seat of bus `busId`: it is for that bus and its
      status is `pending` or `confirmed`. */
  predicate Holds(b: Booking, busId: Value) {
    StrictEquals(b.busId, busId) && (b.status == Str("pending") || b.status == Str("confirmed"))
  }

  /** `bookings.filter(b => b.busId === busId && ['pending','confirmed'].includes(b.status)).map(b => b.seatNumber)` */
  function HeldSeats(bookings: seq<Booking>, busId: Value): (r: seq<Value>)
    ensures forall x :: x in r <==> exists k :: 0 <= k < |bookings| && Holds(bookings[k], busId) && bookings[k].seatNumber == x
  {
    if |bookings| == 0 then []
    else
      var rest := HeldSeats(bookings[1..], busId);
      assert forall k :: 1 <= k < |bookings| ==> bookings[k] == bookings[1..][k - 1];
      assert forall k :: 0 <= k < |bookings[1..]| ==> bookings[1..][k] == bookings[k + 1];
      if Holds(bookings[0], busId) then [bookings[0].seatNumber] + rest else rest
  }

  /** `bookedSeats.includes(seatNum)` for the seat numbered `number`. */
  predicate Disabled(bookings: seq<Booking>, busId: Value, number: nat) {
    Includes(HeldSeats(bookings, busId), Num(number as real))
  }

  /** The seat buttons rendered for `bus`: `[...Array(bus.totalSeats).keys()]`
      numbered from 1, each disabled when its seat is held. `None` is the
      RangeError the render throws for a bad seat count. */
  function SeatGrid(bus: ClientBus, bookings: seq<Booking>): (r: Option<seq<Seat>>)
    ensures r.Some? <==> ArrayLength(bus.totalSeats).Some?
    ensures r.Some? ==> |r.value| == ArrayLength(bus.totalSeats).value
    ensures r.Some? ==> forall i :: 0 <= i < |r.value| ==> r.value[i].number == i + 1
    ensures r.Some? ==> forall i :: 0 <= i < |r.value| ==>
      (r.value[i].disabled <==> exists k :: 0 <= k < |bookings| && Holds(bookings[k], bus.id) &&
                                             bookings[k].seatNumber == Num((i + 1) as real))
  {
    match ArrayLength(bus.totalSeats)
    case None => None
    case Some(n) =>
      var g := seq(n, i requires 0 <= i < n => Seat(i + 1, Disabled(bookings, bus.id, i + 1)));
      assert forall i :: 0 <= i < n ==> (g[i].disabled <==> Num((i + 1) as real) in HeldSeats(bookings, bus.id)) by {
        forall i | 0 <= i < n {
          IncludesPrimitive(HeldSeats(bookings, bus.id), Num((i + 1) as real));
        }
      }
      Some(g)
  }

  function SeatNumbers(g: seq<Seat>): set<nat> {
    set s | s in g :: s.number
  }

  /** The grid lists the seats 1 .. n in increasing order, each exactly once. */
  lemma SeatGridIncreasing(bus: ClientBus, bookings: seq<Booking>)
    requires SeatGrid(bus, bookings).Some?
    ensures var g := SeatGrid(bus, bookings).value;
      (forall i, j :: 0 <= i < j < |g| ==> g[i].number < g[j].number) &&
      (forall m: nat :: m in SeatNumbers(g) <==> 1 <= m <= |g|)
  {
    var g := SeatGrid(bus, bookings).value;
    forall m: nat | 1 <= m <= |g| ensures m in SeatNumbers(g) {
      assert g[m - 1] in g;
    }
  }

  /** A booking that does not hold a seat of this bus (another bus, or a
      status other than pending and confirmed, such as `canceled`) adds no
      held seat, wherever it stands in the list. */
  lemma {:induction false} IrrelevantBookingHoldsNothing(pre: seq<Booking>, b: Booking, post: seq<Booking>, busId: Value)
    requires !Holds(b, busId)
    ensures HeldSeats(pre + [b] + post, busId) == HeldSeats(pre + post, busId)
  {
    if |pre| == 0 {
      assert pre + [b] + post == [b] + post;
      assert ([b] + post)[1..] == post;
      assert pre + post == post;
    } else {
      assert (pre + [b] + post)[1..] == pre[1..] + [b] + post;
      assert (pre + post)[1..] == pre[1..] + post;
      IrrelevantBookingHoldsNothing(pre[1..], b, post, busId);
    }
  }

  /** Hence adding such a booking leaves the whole seat grid as it was. */
  lemma IrrelevantBookingKeepsGrid(bus: ClientBus, pre: seq<Booking>, b: Booking, post: seq<Booking>)
    requires b.status == Str("canceled") || !StrictEquals(b.busId, bus.id)
    ensures SeatGrid(bus, pre + [b] + post) == SeatGrid(bus, pre + post)
  {
    assert !Holds(b, bus.id);
    IrrelevantBookingHoldsNothing(pre, b, post, bus.id);
    var a, c := SeatGrid(bus, pre + [b] + post), SeatGrid(bus, pre + post);
    if a.Some? {
      assert |a.value| == |c.value|;
      forall i | 0 <= i < |a.value| ensures a.value[i] == c.value[i] {
        assert a.value[i].disabled == Disabled(pre + [b] + post, bus.id, i + 1);
      }
      assert a.value == c.value;
    }
  }

  /** With no seat count (the field is absent), `Array(undefined)` has one
      element, so the grid shows the single seat 1. */
  lemma MissingSeatCountShowsOneSeat(bus: ClientBus, bookings: seq<Booking>)
    requires bus.totalSeats == Undefined
    ensures SeatGrid(bus, bookings).Some? && |SeatGrid(bus, bookings).value| == 1
    ensures SeatGrid(bus, bookings).value[0].number == 1
  {
  }

  /** Bus `i` is the one `buses.find(b => b.id === busId)` returns. */
  predicate FirstMatch(buses: seq<ClientBus>, busId: Value, i: int) {
    0 <= i < |buses| && StrictEquals(buses[i].id, busId) &&
    forall j :: 0 <= j < i ==> !StrictEquals(buses[j].id, busId)
  }

  /** `buses.find(b => b.id === busId)?.name || busId`: the name of the first
      bus with that id, unless there is none or its name is falsy. */
  function BusLabel(buses: seq<ClientBus>, busId: Value): (r: Value)
    ensures r == busId || exists i :: FirstMatch(buses, busId, i) && !Falsy(buses[i].name) && r == buses[i].name
    ensures (forall i :: 0 <= i < |buses| ==> !StrictEquals(buses[i].id, busId)) ==> r == busId
  {
    match Find(buses, (b: ClientBus) => b.id, busId)
    case Some(i) => if Falsy(buses[i].name) then busId else buses[i].name
    case None => busId
  }

  /** When the first bus with that id has a truthy name, that name is shown. */
  lemma BusLabelShowsFirstMatch(buses: seq<ClientBus>, busId: Value, i: nat)
    requires FirstMatch(buses, busId, i) && !Falsy(buses[i].name)
    ensures BusLabel(buses, busId) == buses[i].name
  {
    var f := Find(buses, (b: ClientBus) => b.id, busId);
    assert f.Some? && f.value == i;
  }

  /** When the first bus with that id has a falsy name, the id itself is
      shown, even if a later bus with the same id has a name. */
  lemma BusLabelFalsyNameShowsId(buses: seq<ClientBus>, busId: Value, i: nat)
    requires FirstMatch(buses, busId, i) && Falsy(buses[i].name)
    ensures BusLabel(buses, busId) == busId
  {
    var f := Find(buses, (b: ClientBus) => b.id, busId);
    assert f.Some? && f.value == i;
  }

  /** `item.paymentStatus || 'unpaid'`: never empty, and either the stored
      status or `unpaid`. */
  function PaymentLabel(paymentStatus: Value): (r: Value)
    ensures !Falsy(r)
    ensures r == paymentStatus || r == Str("unpaid")
    ensures !Falsy(paymentStatus) ==> r == paymentStatus
  {
    if Falsy(paymentStatus) then Str("unpaid") else paymentStatus
  }

  /** `item.status !== 'canceled'` */
  predicate OffersCancel(b: Booking) {
    !StrictEquals(b.status, Str("canceled"))
  }

  /** The Pay button sits inside the Cancel block and needs
      `item.paymentStatus !== 'paid'` as well. */
  predicate OffersPay(b: Booking) {
    OffersCancel(b) && !StrictEquals(b.paymentStatus, Str("paid"))
  }

  /** Cancel is offered exactly for non-canceled bookings, Pay exactly for
      non-canceled unpaid ones; so Pay never comes without Cancel, and a
      canceled or paid booking is never offered payment. */
  lemma RowActions(b: Booking)
    ensures OffersCancel(b) <==> b.status != Str("canceled")
    ensures OffersPay(b) <==> b.status != Str("canceled") && b.paymentStatus != Str("paid")
    ensures OffersPay(b) ==> OffersCancel(b)
    ensures b.status == Str("canceled") || b.paymentStatus == Str("paid") ==> !OffersPay(b)
  {
  }

  /** The guard of `bookSeat`: without a selected bus, or with a seat that is
      `null` or `undefined`, no request is sent; otherwise the request carries
      the selected bus's id and the selected seat. */
  function BookSeat(selectedBus: Option<ClientBus>, selectedSeat: Value): (r: SeatRequest)
    ensures r.Request? <==> selectedBus.Some? && !LooseNull(selectedSeat)
    ensures r.Request? ==> r.busId == selectedBus.value.id && r.seatNumber == selectedSeat
  {
    if selectedBus.None? || LooseNull(selectedSeat) then SelectFirst
    else Request(selectedBus.value.id, selectedSeat)
  }
}
