/** Properties of the seat store that relate several requests: the order of
    the unavailable-seat report, append-only growth of booked seats between
    resets, and why a seat once booked stays unavailable until a reset. */
module ServerProps {
  import opened Js
  import opened Server

  /** The unavailable-seat report is a filter: it distributes over
      concatenation of the request, so it keeps the request's order. */
  lemma {:induction false} ConflictsAppend(a: seq<Value>, b: seq<Value>, booked: seq<Value>)
    ensures Conflicts(a + b, booked) == Conflicts(a, booked) + Conflicts(b, booked)
  {
    if |a| == 0 {
      assert a + b == b;
    } else {
      assert (a + b)[1..] == a[1..] + b;
      ConflictsAppend(a[1..], b, booked);
    }
  }

  /** A one-seat request is reported exactly when that seat is booked. */
  lemma ConflictsSingle(x: Value, booked: seq<Value>)
    ensures Conflicts([x], booked) == if IsPrimitive(x) && x in booked then [x] else []
  {
    assert [x][1..] == [];
    IncludesPrimitive(booked, x);
  }

  /** Each request seat that is already booked appears in the report as many
      times as it was requested; no other value appears at all. */
  lemma {:induction false} ConflictsCount(seats: seq<Value>, booked: seq<Value>, x: Value)
    ensures multiset(Conflicts(seats, booked))[x] ==
      if IsPrimitive(x) && x in booked then multiset(seats)[x] else 0
  {
    if |seats| > 0 {
      assert seats == [seats[0]] + seats[1..];
      ConflictsAppend([seats[0]], seats[1..], booked);
      ConflictsSingle(seats[0], booked);
      ConflictsCount(seats[1..], booked, x);
    }
  }

  /** One request to the store. */
  datatype Op =
    | BookOp(busId: Value, seats: Value, bookingId: string)
    | ResetOp

  function Step(buses: seq<Bus>, op: Op): seq<Bus> {
    match op
    case BookOp(busId, seats, _) => BookState(buses, busId, seats)
    case ResetOp => Cleared(buses)
  }

  function Run(buses: seq<Bus>, ops: seq<Op>): seq<Bus>
    decreases |ops|
  {
    if |ops| == 0 then buses else Run(Step(buses, ops[0]), ops[1..])
  }

  predicate NoReset(ops: seq<Op>) {
    forall k :: 0 <= k < |ops| ==> ops[k].BookOp?
  }

  /** Ids, names and seat counts, and the number and order of buses.  */
  predicate SameMetadata(a: seq<Bus>, b: seq<Bus>) {
    |a| == |b| &&
    forall j :: 0 <= j < |a| ==> a[j].id == b[j].id && a[j].name == b[j].name && a[j].seats == b[j].seats
  }

  /** No sequence of requests changes any bus's id, name or seat count, nor
      the number or order of buses. */
  lemma {:induction false} RunKeepsMetadata(buses: seq<Bus>, ops: seq<Op>)
    ensures SameMetadata(Run(buses, ops), buses)
    decreases |ops|
  {
    if |ops| > 0 {
      RunKeepsMetadata(Step(buses, ops[0]), ops[1..]);
    }
  }

  /** Between resets, booked seats only grow: every bus's old booked list is
      a prefix of its new one. */
  lemma {:induction false} RunWithoutResetGrows(buses: seq<Bus>, ops: seq<Op>)
    requires NoReset(ops)
    ensures |Run(buses, ops)| == |buses|
    ensures forall j :: 0 <= j < |buses| ==> buses[j].bookedSeats <= Run(buses, ops)[j].bookedSeats
    decreases |ops|
  {
    if |ops| > 0 {
      var next := Step(buses, ops[0]);
      assert NoReset(ops[1..]) by {
        forall k | 0 <= k < |ops[1..]| ensures ops[1..][k].BookOp? {
          assert ops[1..][k] == ops[k + 1];
        }
      }
      RunWithoutResetGrows(next, ops[1..]);
    }
  }

  /** A reset only shrinks: afterwards every booked list is empty, which is a
      prefix of the old one. */
  lemma ResetShrinks(buses: seq<Bus>)
    ensures |Step(buses, ResetOp)| == |buses|
    ensures forall j :: 0 <= j < |buses| ==>
      Step(buses, ResetOp)[j].bookedSeats == [] && [] <= buses[j].bookedSeats
  {
  }

  /** A well-formed request that names a bus on which a requested seat is
      already booked is refused as `Unavailable`, and the report names it. */
  lemma BookedSeatRefused(buses: seq<Bus>, busId: Value, seats: seq<Value>, bookingId: string, x: Value)
    requires !Falsy(busId) && FindBus(buses, busId).Some?
    requires x in seats && IsPrimitive(x) && x in buses[FindBus(buses, busId).value].bookedSeats
    ensures BookReply(buses, busId, Arr(seats), bookingId).Unavailable?
    ensures x in BookReply(buses, busId, Arr(seats), bookingId).seats
  {
  }

  /** Once a request is accepted, any later request for the same bus that
      asks again for one of its seats is refused, whatever other bookings
      happened in between, as long as no reset ran. */
  lemma RebookRefusedUntilReset(
    buses: seq<Bus>, busId: Value, seats: Value, bookingId: string,
    between: seq<Op>, later: seq<Value>, laterId: string, x: Value)
    requires BookReply(buses, busId, seats, bookingId).Ok?
    requires seats.Arr? && x in seats.items && x in later && IsPrimitive(x)
    requires NoReset(between)
    ensures var s := Run(BookState(buses, busId, seats), between);
      BookReply(s, busId, Arr(later), laterId).Unavailable? &&
      x in BookReply(s, busId, Arr(later), laterId).seats
  {
    AcceptedAppends(buses, busId, seats, bookingId);
    var i := FindBus(buses, busId).value;
    var s1 := BookState(buses, busId, seats);
    var s := Run(s1, between);
    assert x in s1[i].bookedSeats;
    RunWithoutResetGrows(s1, between);
    RunKeepsMetadata(s1, between);
    FindDependsOnlyOnKeys(s, IdOf, buses, IdOf, busId);
    assert x in s[i].bookedSeats;
    BookedSeatRefused(s, busId, later, laterId, x);
  }

  /** After a reset, the same request that was accepted before is accepted
      again: its seats are free once more. */
  lemma ResetFreesSeats(buses: seq<Bus>, busId: Value, seats: Value, bookingId: string, laterId: string)
    requires BookReply(buses, busId, seats, bookingId).Ok?
    ensures var s := Step(BookState(buses, busId, seats), ResetOp);
      BookReply(s, busId, seats, laterId).Ok?
  {
    var s1 := BookState(buses, busId, seats);
    var s := Step(s1, ResetOp);
    FindDependsOnlyOnKeys(s, IdOf, buses, IdOf, busId);
    AllOrNothing(s, busId, seats, laterId);
  }

  /** The store a process starts with accepts any well-formed first request
      for `bus1` or `bus2`. */
  lemma InitialStoreAcceptsFirstBooking(id: string, seats: seq<Value>, bookingId: string)
    requires id == "bus1" || id == "bus2"
    ensures BookReply(InitialBuses(), Str(id), Arr(seats), bookingId).Ok?
  {
    AllOrNothing(InitialBuses(), Str(id), Arr(seats), bookingId);
  }
}
