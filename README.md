# Busgo seat booking — a verified model

Busgo is a bus seat-booking app: an Express backend (`server.js`) and a
React Native client (`App.js`). This project models two pieces of it in Dafny.

**The backend's in-memory seat store.** The server keeps a module-level array
`buses`. Each bus has an `id`, a `name`, a seat count `seats` and a list
`bookedSeats`. The store is modelled as the class `Server.BusStore`, whose
field `buses` is a sequence of `Bus` records.
- `Book` models `POST /book`. It refuses a request whose `busId` is falsy or
  whose `seats` is not an array. It looks up the first bus with that id. It
  rejects the whole request, and reports exactly the conflicting seats, if any
  requested seat is already booked. Otherwise it appends every requested seat.
- `Reset` models `POST /admin/reset`. It empties every bus's booked list with
  a loop, as the handler's `forEach` does.
- `ListBuses` and `GetBus` model the two read-only `GET` routes.

`Book` and `Reset` are proved against pure functions of the old store:
`BookReply`, `BookState` and `Cleared`. The lemmas in `Server` and `ServerProps` state what
the handler promises about those functions:
- all-or-nothing acceptance;
- the exact, ordered report of unavailable seats;
- append-only growth between resets;
- no change to any bus's id, name or seat count, nor to the number or order
  of buses;
- a primitive seat value that was booked stays unavailable until a reset.

**The client's seat-availability and row-gating rules.** These are pure
functions in `Client`:
- the seat grid built from `Array(totalSeats)`;
- the "held" rule: a seat is disabled when a booking for that bus has status
  `pending` or `confirmed`;
- the bus and payment labels of a booking row;
- when the row offers Cancel and Pay;
- the guard at the start of `bookSeat`.

**JavaScript values.** Request bodies and fetched records are untyped JSON, so
their fields are modelled by `Js.Value`. `Js.Falsy` models `!v`,
`Js.StrictEquals` models `===` and `Js.Includes` models `Array.prototype.includes`.
Arrays and objects are reference values, and every parse creates fresh ones.
So a composite value is never `===` to a value from another parse, and
`includes` never finds it among earlier values. Every comparison in the
modelled code crosses parses: the server compares a request against earlier
requests, and the client compares bookings against buses.

**Behaviour of the code worth knowing.** The model follows the code:
- Seat numbers are not checked against `seats`.
- Duplicate seats within one request are accepted and stored twice.
- A successful booking stores no booking record. It only extends
  `bookedSeats` and returns a fresh id.
- App.js:423 falls back to `busId` also when the matched bus has a falsy
  name, not only when no bus matches.
- The server describes a bus's size as `seats`, but the client reads
  `totalSeats`. With a record that lacks `totalSeats`, `Array(undefined)`
  has one element, so the grid shows a single seat
  (`Client.MissingSeatCountShowsOneSeat`). The model keeps both field names
  as they are.
- The client posts `{busId, seatNumber}` to `/bookings`, an endpoint that
  server.js does not define.

## Model

| member | source | states |
|---|---|---|
| `Js.Falsy` | server.js:42 | `!v` holds for undefined, null, false, 0 and the empty string |
| `Js.StrictEquals` | server.js:46 | `===` between separately parsed values: primitives by content, arrays and objects never |
| `Js.Includes` | server.js:50 | `includes` finds a value when some element is `===` to it |
| `Js.LooseNull` | App.js:109 | `v == null` holds exactly for null and undefined |
| `Js.Find` | server.js:34 | `find` by `===` returns the first index whose key equals the probe, and none exactly when no key does |
| `Server.InitialBuses` | server.js:12-25 | the store starts with two buses with distinct ids and nothing booked |
| `Server.IdOf` | server.js:46 | the key of both lookups, `b => b.id`, as the JS string compared by `===` |
| `Server.FindBus` | server.js:46-47 | the lookup picks the first bus whose id is `===` to `busId`, and fails exactly when no bus has that id |
| `Server.Conflicts` | server.js:50 | the unavailable list contains only requested seats that are booked, and contains every requested primitive seat that is booked; it is no longer than the request |
| `Server.ConflictsEmpty` | server.js:50-51 | the unavailable list is empty exactly when no requested seat is already booked |
| `Server.BookReply` | server.js:42-61 | the reply of `POST /book`: an `Unavailable` reply lists at least one seat, all of them requested primitives; an `Ok` reply echoes the request's seats, the booking id and the id of the bus that `busId` names |
| `Server.BookState` | server.js:40-62 | booking never changes the number of buses or any id, name or seat count; each bus's booked list is either unchanged or extended by the requested seats |
| `Server.Cleared` | server.js:65-69 | reset keeps the number of buses and every id, name and seat count, and empties every booked list |
| `Server.BadRequestChangesNothing` | server.js:42-44 | `BadRequest` is returned exactly when `busId` is falsy or `seats` is not an array, and then the store is unchanged |
| `Server.UnknownBusChangesNothing` | server.js:46-47 | a well-formed request gets `NotFound` exactly when no bus has that id, and then the store is unchanged |
| `Server.UnavailableIsExact` | server.js:50-53 | an `Unavailable` reply carries exactly the filtered request seats booked on the matched bus, some seat was booked, and nothing is added |
| `Server.AllOrNothing` | server.js:49-56 | a request is accepted exactly when it is well-formed, names a bus, and none of its seats is booked there; any other request leaves the store unchanged |
| `Server.AcceptedAppends` | server.js:56-61 | on success the matched bus's booked list is the old list followed by the request in order, every other bus is unchanged, no requested seat was booked before, and the reply echoes the id, bus and seats |
| `Server.BusStore.constructor` | server.js:12-25 | a new store holds the initial two buses |
| `Server.BusStore.ListBuses` | server.js:28-30 | `GET /buses` returns the whole store in order |
| `Server.BusStore.GetBus` | server.js:33-37 | `GET /buses/:id` returns the first bus with that id, or nothing exactly when no bus has it |
| `Server.BusStore.Book` | server.js:40-62 | the reply and the new store are `BookReply` and `BookState` of the old store; a refused request changes nothing; on success only the matched bus changes, by appending; every booked list of the old store is a prefix of the new one |
| `Server.BusStore.Reset` | server.js:65-70 | every bus has its booked list emptied, with everything else, the count and the order unchanged |
| `ServerProps.ConflictsAppend` | server.js:50 | the unavailable report distributes over concatenation of the request, so it keeps request order |
| `ServerProps.ConflictsSingle` | server.js:50 | a single requested seat is reported exactly when it is a primitive that is already booked |
| `ServerProps.ConflictsCount` | server.js:50 | each booked seat is reported as many times as it was requested, and nothing else is reported |
| `ServerProps.RunKeepsMetadata` | server.js:40-70 | no sequence of bookings and resets changes any bus's id, name or seat count, or the number and order of buses |
| `ServerProps.RunWithoutResetGrows` | server.js:56 | without a reset, every bus's booked list only grows: the old list is a prefix of the new one |
| `ServerProps.ResetShrinks` | server.js:67 | after a reset every booked list is empty, which is a prefix of the old one |
| `ServerProps.BookedSeatRefused` | server.js:50-53 | a request for a seat already booked on the matched bus is refused as `Unavailable`, and the report names that seat |
| `ServerProps.RebookRefusedUntilReset` | server.js:50-56 | after an accepted booking, any later request on that bus repeating one of its primitive seat values is refused as `Unavailable`, whatever bookings come in between, as long as no reset runs |
| `ServerProps.ResetFreesSeats` | server.js:65-68 | after a reset, the request that was accepted before is accepted again |
| `ServerProps.InitialStoreAcceptsFirstBooking` | server.js:12-25 | the initial store accepts any well-formed first request for `bus1` or `bus2` |
| `Client.ArrayLength` | App.js:389 | the grid's length for `Array(totalSeats)`: n for an integer n in [0, 2^32 - 1], a RangeError for any other number, 1 for a non-number |
| `Client.ToUint32` | App.js:389 | ToUint32 of section 7.1.7 of ECMA-262: truncate toward zero, reduce modulo 2^32 |
| `Client.ArrayConstructorLength` | App.js:389 | the single-argument length rule of `Array(len)`, section 23.1.1.1 of ECMA-262: 1 for a non-Number, otherwise `ToUint32(len)` unless that differs from `len`, which throws |
| `Client.ArrayLengthIsConstructorRule` | App.js:389 | the grid's range test gives the same length, or the same RangeError, as the ECMA-262 constructor rule, for every argument |
| `Client.Holds` | App.js:392 | the filter predicate: the booking's `busId` is `===` the selected bus's id and its status is `pending` or `confirmed` |
| `Client.HeldSeats` | App.js:392 | a value is a held seat exactly when some booking for that bus with status pending or confirmed has that seat number |
| `Client.Disabled` | App.js:393 | seat `number` is disabled when the held-seat list includes the Number `number` by `===` |
| `Client.SeatGrid` | App.js:389-393 | the grid has as many seats as `Array(totalSeats)`, seat i is numbered i + 1, and a seat is disabled exactly when some pending or confirmed booking for the selected bus has that seat number |
| `Client.SeatGridIncreasing` | App.js:389-390 | the grid's seat numbers strictly increase and are exactly 1 .. n |
| `Client.IrrelevantBookingHoldsNothing` | App.js:392 | a booking for another bus, or with a status other than pending or confirmed, adds no held seat wherever it is inserted |
| `Client.IrrelevantBookingKeepsGrid` | App.js:392-393 | adding a canceled booking, or a booking for another bus, leaves the seat grid unchanged |
| `Client.MissingSeatCountShowsOneSeat` | App.js:389 | a bus record without `totalSeats` yields a grid with the single seat 1 |
| `Client.FirstMatch` | App.js:423 | bus i is the one `find` returns: the first bus whose id is `===` the booking's `busId` |
| `Client.BusLabel` | App.js:423 | the label is `busId` or the truthy name of the first bus with that id, and it is `busId` when no bus matches |
| `Client.BusLabelShowsFirstMatch` | App.js:423 | when the first bus with that id has a truthy name, that name is the label |
| `Client.BusLabelFalsyNameShowsId` | App.js:423 | when the first bus with that id has a falsy name, the label is `busId`, even if a later bus with the same id has a name |
| `Client.PaymentLabel` | App.js:436 | the payment label is never falsy: it is the stored status when that is truthy, and `unpaid` otherwise |
| `Client.OffersCancel` | App.js:438-440 | the row offers Cancel when `status !== 'canceled'` |
| `Client.OffersPay` | App.js:438-443 | the row offers Pay when it offers Cancel and `paymentStatus !== 'paid'` |
| `Client.RowActions` | App.js:438-443 | Cancel is offered exactly when the status is not `canceled`, Pay exactly when it is also not paid, Pay implies Cancel, and a canceled or paid booking is never offered payment |
| `Client.BookSeat` | App.js:109-124 | a request is sent exactly when a bus is selected and the seat is neither null nor undefined, and it carries that bus's id and that seat |

## Left out

- Express plumbing: routing, CORS, JSON body parsing, HTTP status codes and `app.listen` (server.js:1-9, 72-74). Replies are the datatype `BookResult` instead of HTTP responses.
- `uuidv4()` (server.js:59) is a random source. Its value is the `bookingId` parameter of `Book`. It is echoed in the reply and stored nowhere.
- Concurrency: each handler runs to completion on Node's single thread. The store is therefore modelled sequentially.
- Object identity: the store's bus objects are mutated in place in the source. They are never aliased outside the `buses` array, so replacing a record in a sequence of values has the same effect.
- Numbers are reals. Rounding to IEEE doubles is not modelled. NaN does not arise, because JSON cannot carry it.
- A request body that is not an object is not modelled. `Book` takes the two destructured fields directly, with `Undefined` for a missing one.
- App.js apart from the lines cited above is not part of this model. That covers React state and hooks, rendering, `fetch` calls, Firebase authentication, alerts, image upload and the admin bus editor. These are UI, network I/O and third-party SDKs.
- `Client.BookSeat` models only the guard and the request body. The `fetch` itself, the alert, the loading flag and the refresh afterwards are I/O.
- The endpoints the client calls that server.js does not define (`/bookings`, cancellation, payment verification, bus editing) are not part of this model. No booking ledger, status lifecycle or payment reconciliation exists in server.js.
