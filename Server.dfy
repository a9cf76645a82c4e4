/** The backend's in-memory seat store (server.js): the module-level `buses`
    array, the `/book` handler that validates a request, looks the bus up,
    rejects the whole request when any requested seat is already booked and
    otherwise appends every requested seat, the `/admin/reset` handler that
    empties every bus's booked seats, and the two read-only lookups. */
module Server {
  import opened Js

  /** One record of the `buses` array. `bookedSeats` holds whatever values
      requests asked for: the handler never checks them against `seats`. */
  datatype Bus = Bus(id: string, name: string, seats: nat, bookedSeats: seq<Value>)

  /** The reply of `POST /book`, one constructor per way out of the handler. */
  datatype BookResult =
    | BadRequest                                   // busId falsy or seats not an array
    | NotFound                                     // no bus has that id
    | Unavailable(seats: seq<Value>)               // requested seats that are already booked
    | Ok(bookingId: string, busId: string, seats: seq<Value>)

  /** The store the process starts with. */
  function InitialBuses(): (r: seq<Bus>)
    ensures |r| == 2
    ensures forall i :: 0 <= i < |r| ==> r[i].bookedSeats == []
    ensures r[0].id != r[1].id
  {
    [ Bus("bus1", "Express Line", 40, []),
      Bus("bus2", "City Rider", 30, []) ]
  }

  /** The key `b => b.id` of both lookups: a bus id as a JS string. */
  function IdOf(b: Bus): Value { Str(b.id) }

  /** `buses.find(b => b.id === busId)`, as an index into the store. */
  function FindBus(buses: seq<Bus>, busId: Value): (r: Option<nat>)
    ensures r.Some? ==> r.value < |buses| && busId == Str(buses[r.value].id)
    ensures r.Some? ==> forall j :: 0 <= j < r.value ==> busId != Str(buses[j].id)
    ensures r.None? <==> forall j :: 0 <= j < |buses| ==> busId != Str(buses[j].id)
  {
    Find(buses, IdOf, busId)
  }

  /** `seats.filter(seat => booked.includes(seat))`: the requested seats that
      are already booked, in request order and with request multiplicity. */
  function Conflicts(seats: seq<Value>, booked: seq<Value>): (u: seq<Value>)
    ensures |u| <= |seats|
    ensures forall x :: x in u ==> x in seats && IsPrimitive(x) && x in booked
    ensures forall i :: 0 <= i < |seats| && IsPrimitive(seats[i]) && seats[i] in booked ==> seats[i] in u
  {
    if |seats| == 0 then []
    else
      var rest := Conflicts(seats[1..], booked);
      assert forall i :: 1 <= i < |seats| ==> seats[i] == seats[1..][i - 1];
      IncludesPrimitive(booked, seats[0]);
      if Includes(booked, seats[0]) then [seats[0]] + rest else rest
  }

  /** No requested seat is already among `booked`. */
  predicate AllFree(seats: seq<Value>, booked: seq<Value>) {
    forall k :: 0 <= k < |seats| ==> !(IsPrimitive(seats[k]) && seats[k] in booked)
  }

  lemma ConflictsEmpty(seats: seq<Value>, booked: seq<Value>)
    ensures Conflicts(seats, booked) == [] <==> AllFree(seats, booked)
  {
  }

  /** The reply `POST /book` sends for body `{busId, seats}` against store
      `buses`; `bookingId` stands for the fresh `uuidv4()` value. */
  function BookReply(buses: seq<Bus>, busId: Value, seats: Value, bookingId: string): (r: BookResult)
    ensures r.Unavailable? ==> seats.Arr? && |r.seats| > 0
    ensures r.Unavailable? ==> forall x :: x in r.seats ==> x in seats.items && IsPrimitive(x)
    ensures r.Ok? ==> seats.Arr? && r.seats == seats.items && r.bookingId == bookingId && busId == Str(r.busId)
  {
    if Falsy(busId) || !seats.Arr? then BadRequest
    else match FindBus(buses, busId)
      case None => NotFound
      case Some(i) =>
        var u := Conflicts(seats.items, buses[i].bookedSeats);
        if |u| > 0 then Unavailable(u) else Ok(bookingId, buses[i].id, seats.items)
  }

  /** The store after `POST /book`: only an accepted request changes it, and
      then only the matched bus's `bookedSeats`, by appending the request. */
  function BookState(buses: seq<Bus>, busId: Value, seats: Value): (s: seq<Bus>)
    ensures |s| == |buses|
    ensures forall j :: 0 <= j < |s| ==>
      s[j].id == buses[j].id && s[j].name == buses[j].name && s[j].seats == buses[j].seats
    ensures forall j :: 0 <= j < |s| ==>
      s[j].bookedSeats == buses[j].bookedSeats ||
      (seats.Arr? && s[j].bookedSeats == buses[j].bookedSeats + seats.items)
  {
    if Falsy(busId) || !seats.Arr? then buses
    else match FindBus(buses, busId)
      case None => buses
      case Some(i) =>
        if |Conflicts(seats.items, buses[i].bookedSeats)| > 0 then buses
        else buses[i := buses[i].(bookedSeats := buses[i].bookedSeats + seats.items)]
  }

  /** The store after `POST /admin/reset`. */
  function Cleared(buses: seq<Bus>): (s: seq<Bus>)
    ensures |s| == |buses|
    ensures forall j :: 0 <= j < |s| ==>
      s[j].id == buses[j].id && s[j].name == buses[j].name && s[j].seats == buses[j].seats
    ensures forall j :: 0 <= j < |s| ==> s[j].bookedSeats == []
  {
    seq(|buses|, j requires 0 <= j < |buses| => buses[j].(bookedSeats := []))
  }

  /** A request whose `busId` is falsy or whose `seats` is not an array is
      refused and the store is left as it was. */
  lemma BadRequestChangesNothing(buses: seq<Bus>, busId: Value, seats: Value, bookingId: string)
    ensures BookReply(buses, busId, seats, bookingId) == BadRequest <==> Falsy(busId) || !seats.Arr?
    ensures BookReply(buses, busId, seats, bookingId) == BadRequest ==> BookState(buses, busId, seats) == buses
  {
  }

  /** A well-formed request naming no bus of the store gets `NotFound` and
      leaves the store unchanged. */
  lemma UnknownBusChangesNothing(buses: seq<Bus>, busId: Value, seats: Value, bookingId: string)
    requires !Falsy(busId) && seats.Arr?
    ensures BookReply(buses, busId, seats, bookingId) == NotFound <==>
      forall j :: 0 <= j < |buses| ==> busId != Str(buses[j].id)
    ensures BookReply(buses, busId, seats, bookingId) == NotFound ==> BookState(buses, busId, seats) == buses
  {
  }

  /** A rejection for already-booked seats reports exactly the requested seats
      that the FIRST bus with that id has booked, in request order, and adds
      nothing. */
  lemma UnavailableIsExact(buses: seq<Bus>, busId: Value, seats: Value, bookingId: string)
    requires BookReply(buses, busId, seats, bookingId).Unavailable?
    ensures seats.Arr? && FindBus(buses, busId).Some?
    ensures var i := FindBus(buses, busId).value;
      BookReply(buses, busId, seats, bookingId).seats == Conflicts(seats.items, buses[i].bookedSeats) &&
      !AllFree(seats.items, buses[i].bookedSeats)
    ensures BookState(buses, busId, seats) == buses
  {
    var i := FindBus(buses, busId).value;
    ConflictsEmpty(seats.items, buses[i].bookedSeats);
  }

  /** All or nothing: the store changes exactly when the request is accepted,
      and it is accepted exactly when it is well-formed, names a bus, and none
      of its seats is booked on that bus. */
  lemma AllOrNothing(buses: seq<Bus>, busId: Value, seats: Value, bookingId: string)
    ensures BookReply(buses, busId, seats, bookingId).Ok? <==>
      !Falsy(busId) && seats.Arr? && FindBus(buses, busId).Some? &&
      AllFree(seats.items, buses[FindBus(buses, busId).value].bookedSeats)
    ensures !BookReply(buses, busId, seats, bookingId).Ok? ==> BookState(buses, busId, seats) == buses
  {
    if !Falsy(busId) && seats.Arr? && FindBus(buses, busId).Some? {
      ConflictsEmpty(seats.items, buses[FindBus(buses, busId).value].bookedSeats);
    }
  }

  /** An accepted request appends all its seats, in order, to the matched
      bus and touches no other bus; none of those seats was booked before. */
  lemma AcceptedAppends(buses: seq<Bus>, busId: Value, seats: Value, bookingId: string)
    requires BookReply(buses, busId, seats, bookingId).Ok?
    ensures seats.Arr? && FindBus(buses, busId).Some?
    ensures var i := FindBus(buses, busId).value;
      var s := BookState(buses, busId, seats);
      && s[i].bookedSeats == buses[i].bookedSeats + seats.items
      && (forall j :: 0 <= j < |s| && j != i ==> s[j] == buses[j])
      && AllFree(seats.items, buses[i].bookedSeats)
      && BookReply(buses, busId, seats, bookingId) == Ok(bookingId, buses[i].id, seats.items)
  {
  }

  /** The store as a single object whose `buses` field the handlers update. */
  class BusStore {
    var buses: seq<Bus>

    constructor ()
      ensures buses == InitialBuses()
    {
      buses := InitialBuses();
    }

    /** `GET /buses`: the whole store, in order. */
    method ListBuses() returns (r: seq<Bus>)
      ensures r == buses
    {
      r := buses;
    }

    /** `GET /buses/:id`: the first bus whose id equals the path parameter,
        or `None` (a 404) when there is none. */
    method GetBus(id: string) returns (r: Option<Bus>)
      ensures r.None? <==> forall j :: 0 <= j < |buses| ==> buses[j].id != id
      ensures r.Some? ==> (exists i :: 0 <= i < |buses| && buses[i] == r.value &&
                             r.value.id == id && forall j :: 0 <= j < i ==> buses[j].id != id)
    {
      match FindBus(buses, Str(id))
      case None =>
        r := None;
      case Some(i) =>
        r := Some(buses[i]);
        assert forall j :: 0 <= j < i ==> Str(id) != Str(buses[j].id);
    }

    /** `POST /book` with body `{busId, seats}`; `bookingId` stands for the
        `uuidv4()` value that the handler returns and never stores. */
    method Book(busId: Value, seats: Value, bookingId: string) returns (r: BookResult)
      modifies this
      ensures r == BookReply(old(buses), busId, seats, bookingId)
      ensures buses == BookState(old(buses), busId, seats)
      ensures !r.Ok? ==> buses == old(buses)
      ensures r.Ok? ==> seats.Arr?
      ensures r.Ok? ==>
        exists i :: 0 <= i < |buses| && IdOf(buses[i]) == busId &&
          buses[i].bookedSeats == old(buses)[i].bookedSeats + seats.items &&
          forall j :: 0 <= j < |buses| && j != i ==> buses[j] == old(buses)[j]
      ensures forall j :: 0 <= j < |buses| ==> old(buses)[j].bookedSeats <= buses[j].bookedSeats
    {
      if Falsy(busId) || !seats.Arr? {
        return BadRequest;
      }
      var found := FindBus(buses, busId);
      if found.None? {
        return NotFound;
      }
      var i := found.value;
      var unavailable := Conflicts(seats.items, buses[i].bookedSeats);
      if |unavailable| > 0 {
        return Unavailable(unavailable);
      }
      buses := buses[i := buses[i].(bookedSeats := buses[i].bookedSeats + seats.items)];
      r := Ok(bookingId, buses[i].id, seats.items);
    }

    /** `POST /admin/reset`: `buses.forEach(bus => { bus.bookedSeats = []; })`. */
    method Reset()
      modifies this
      ensures |buses| == |old(buses)|
      ensures forall j :: 0 <= j < |buses| ==> buses[j] == old(buses)[j].(bookedSeats := [])
      ensures buses == Cleared(old(buses))
    {
      var k := 0;
      while k < |buses|
        invariant 0 <= k <= |buses| == |old(buses)|
        invariant forall j :: 0 <= j < k ==> buses[j] == old(buses)[j].(bookedSeats := [])
        invariant forall j :: k <= j < |buses| ==> buses[j] == old(buses)[j]
      {
        buses := buses[k := buses[k].(bookedSeats := [])];
        k := k + 1;
      }
    }
  }
}
