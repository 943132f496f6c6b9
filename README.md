# Train booking engine — a Dafny model

This project models the booking and inventory engine of a train-seat booking
service. The engine keeps four tables: trains, seats, clients and
reservations. Read-only routes find trains between two stations, list the
Available seats of a train by class and fare, look up a seat or a train, and
list a client's reservations. Two routes change the tables:

- *create reservation* books an Available seat for a client and flips the seat to Reserved;
- *cancel reservation* turns a Confirmed reservation Cancelled and frees its seat.

The central invariant is that a seat is Reserved exactly when one Confirmed
reservation is on it, and Available exactly when none is.

Layout:

- `outcomes.dfy` (`Outcomes`): `Option`, `Result` and the three error kinds the routes raise (NotFound, InvalidArgument, AlreadyCancelled), with the routes' detail texts.
- `models.dfy` (`Models`): the four records. It also holds the status, class and ticket-type columns as enumerations. The store is a value with one sequence per table, in storage order. `WellFormed` joins the constraints of the table declarations (unique keys, unique usernames, resolving foreign keys) with the engine's own invariant, which no declaration states: a seat is Reserved exactly when one Confirmed reservation is on it. Create and cancel keep all of it.
- `queries.dfy` (`Queries`): the read-only routes as functions of a store value.
- `reservations.dfy` (`Reservations`): create and cancel as functions from a store to a response and the next store. Also the lemmas on how they keep the invariant and how they combine.
- `engine.dfy` (`Engine`): a `Database` class whose four fields are the tables. Its methods are the two routes that build their answer in a loop, and the two routes that update rows in place. A fifth method, `ListEntries`, is the entry loop of the client listing (app/rest_api/routes.py:282-291). Each method's `ensures` ties it to the functions above.

Modelling choices:

- Fares are integers (hundredths of a currency unit). Date-times are integer timestamps.
- Station names, usernames and the filter arguments are strings.
- The seat-class and reservation-status filters arrive as text. They are compared with the stored names, as the SQL does, so an unknown name matches nothing.
- A filter test written `if arg:` treats an empty text like an absent one (`ActiveText`). The same holds for a minimum seat count of 0.
- Look-ups return the first matching row, as `.first()` does.
- A new reservation gets the key SQLite gives a new row: one more than the largest key in use, or 1 for an empty table (`NextReservationId`). Keys are unbounded integers.
- The foreign keys are constraints of a well-formed store. SQLite does not enforce them unless foreign keys are switched on, and `app/database.py` does not switch them on. So the routes' own missing-seat branches are modelled as reachable.
- `filter_trains` groups without an `ORDER BY`. The model returns trains in storage order, and the source promises no order.
- `ORDER BY fare DESC` does not fix the order of equal fares. The model sorts by insertion, and only the non-increasing order and the contents are stated.

## Model

| member | source | states |
|---|---|---|
| `Models.NewSeat` | app/models.py:26 | Definition: a seeded seat row with the given key, train, class and fare, and the column's default status, Available. |
| `Models.UniqueKeys` | app/models.py:10-50 | Definition: the primary keys of the four tables are distinct, and so are usernames (the `unique=True` of line 40). |
| `Models.ReferencesResolve` | app/models.py:24-52 | Definition: every seat names a stored train, and every reservation a stored client and a stored seat, as the foreign keys declare. |
| `Models.WellFormed` | app/models.py:10-54 | Definition: unique keys, resolving references, and the engine's invariant that a seat is Reserved exactly when one Confirmed reservation is on it. |
| `Models.ParseTicketType` | app/rest_api/routes.py:212-213 | Only "Flexible" and "NonFlexible" are accepted, and a parsed type names the text it came from. |
| `Models.TicketTypeRoundTrip` | app/models.py:53 | Parsing the stored name of a ticket type gives it back. |
| `Models.ReservedIffConfirmed` | app/models.py:47-60 | In a well-formed store no seat has two Confirmed reservations. A seat is Reserved iff some Confirmed reservation is on it. |
| `Models.AddSeatPreservesWellFormed` | app/models.py:20-27 | A seat inserted as Available (the seeding value and the column default), on an existing train and under a fresh key, keeps the store well-formed. |
| `Models.BookKeepsWellFormed` | app/rest_api/routes.py:226-236 | Appending a Confirmed reservation with a fresh key for a stored client, and flipping its Available seat to Reserved, keeps every constraint (keys, references, status invariant). |
| `Models.ReleaseKeepsWellFormed` | app/rest_api/routes.py:321-325 | Turning a Confirmed reservation Cancelled and its seat Available keeps every constraint. |
| `Models.ConfirmedCountUpdate` | app/rest_api/routes.py:322 | Changing one reservation row changes a seat's Confirmed count by exactly the difference the row makes. |
| `Queries.Qualifies` | app/rest_api/routes.py:36-57 | Definition: both stations equal, departure inside the inclusive outbound/return bounds, at least one Available seat of the filtered class, and, for a non-zero minimum, at least that many. |
| `Queries.MatchingTrains` | app/rest_api/routes.py:36-59 | Every stored train that qualifies appears exactly as often as it is stored, and no other train. |
| `Queries.Summarize` | app/rest_api/routes.py:64-81 | An answer entry copies the train's columns, and each per-class count is the number of the train's Available seats of that class. |
| `Queries.SeatCountIsCardinality` | app/rest_api/routes.py:36-57 | The per-train count of the joined query is the number of the train's seats that are Available and of the filtered class. |
| `Queries.SeatCountSplitsByClass` | app/rest_api/routes.py:51-57 | Without a class filter that count is the sum of the First, Business and Standard counts. |
| `Queries.MatchingTrainsExact` | app/rest_api/routes.py:36-59 | A train is returned iff it is stored and qualifies. Qualifying means: both stations equal, departure inside the inclusive outbound/return bounds, at least one Available seat of the filtered class, and, for a non-zero minimum, at least that many. |
| `Queries.QualifyingTrainHasSeat` | app/rest_api/routes.py:39-52 | Every returned train has an Available seat, of the requested class when one is given. |
| `Queries.ClassCountIsAvailableSeats` | app/rest_api/routes.py:66-70 | Each per-class count in a summary is the number of the train's Available seats of that class. It does not depend on the query's class filter. |
| `Queries.FilterByClassAndMinimum` | app/rest_api/routes.py:51-57 | Of two trains on one line, one with three and one with one Available Standard seat, a minimum of 2 Standard seats keeps only the first. |
| `Queries.InsertByFare` | app/rest_api/routes.py:111 | Inserting into a fare-descending sequence keeps it fare-descending and adds exactly the one seat. |
| `Queries.SortByFare` | app/rest_api/routes.py:111 | The result is ordered by fare from high to low and is a permutation of the input. |
| `Queries.Bucket` | app/rest_api/routes.py:129-133 | A class group holds every seat of that class exactly as often as the input does, and no other seat. It keeps a fare-descending order. |
| `Queries.GroupByClass` | app/rest_api/routes.py:129-133 | The keys are exactly the three class names. Each group holds that class's seats exactly as often as the input does, and keeps a fare-descending input fare-descending. |
| `Queries.OfferedSeats` | app/rest_api/routes.py:101-108 | Holds every Available seat of the train (of the filtered class when a filter is given) exactly as often as it is stored, and no other seat. |
| `Queries.GetTrainSeats` | app/rest_api/routes.py:101-147 | A failure is always NotFound("No available seats found for the specified train."), and a success is for the requested train. |
| `Queries.GetTrainSeatsNotFound` | app/rest_api/routes.py:113-114 | The seat listing fails with NotFound iff the train has no Available seat of the filtered class. So a First filter on a train with only other classes free fails. |
| `Queries.GetTrainSeatsKeys` | app/rest_api/routes.py:136-145 | A successful listing is for the given train. With a filter its only key is that class; otherwise the keys are the three class names. |
| `Queries.GetTrainSeatsGroups` | app/rest_api/routes.py:101-133 | Every group is ordered by fare from high to low. It holds each of the train's Available seats of that class exactly as often as it is stored, and no other seat. |
| `Queries.GetSeat` | app/rest_api/routes.py:159-172 | Succeeds iff a seat with the id is stored, returning that seat; otherwise NotFound. |
| `Queries.GetTrain` | app/rest_api/routes.py:184-197 | Succeeds iff a train with the id is stored, returning that train; otherwise NotFound. |
| `Queries.ReservationsOf` | app/rest_api/routes.py:269-276 | Holds each of the client's reservations (of the filtered status when a filter is given) exactly as often as it is stored, and no other reservation. |
| `Queries.ReservationsOfConcat` | app/rest_api/routes.py:269-276 | The listing keeps storage order: the listing of two stretches of rows is the listing of the first followed by that of the second. |
| `Queries.TrainOfSeat` | app/rest_api/routes.py:284-288 | The train of the seat with that id, or None exactly when no such seat is stored. |
| `Queries.View` | app/rest_api/routes.py:283-291 | A listing entry copies the reservation's columns. Its train is None exactly when no seat with the reservation's seat id is stored; otherwise it is the train of such a seat. |
| `Queries.ViewHasTrain` | app/rest_api/routes.py:284-288 | In a well-formed store every listed reservation carries the train of its seat, never None. |
| `Reservations.NextReservationId` | app/models.py:50 | A new key is larger than every key in use and is one more than the largest; for an empty table it is 1. |
| `Reservations.Create` | app/rest_api/routes.py:211-245 | Checks run in order: invalid ticket type gives InvalidArgument; unknown client gives NotFound; a seat that is missing or not Available gives the same NotFound. Any failure leaves the store unchanged. Success happens iff all three checks pass. It then appends one Confirmed reservation with a fresh key for that client, seat and ticket type, and flips that seat to Reserved. Nothing else changes, and the answer carries the seat's train. |
| `Reservations.Cancel` | app/rest_api/routes.py:307-335 | An unknown reservation gives NotFound. An already Cancelled one gives AlreadyCancelled. A reservation whose seat is missing gives NotFound. Any failure leaves the store unchanged. Otherwise the reservation becomes Cancelled and its seat Available, nothing else changes, and the answer carries the seat's train. |
| `Reservations.CreatePreservesWellFormed` | app/rest_api/routes.py:226-236 | Create keeps a well-formed store well-formed, including "Reserved iff one Confirmed reservation". |
| `Reservations.CancelPreservesWellFormed` | app/rest_api/routes.py:321-325 | Cancel keeps a well-formed store well-formed. |
| `Reservations.CreateTwiceFails` | app/rest_api/routes.py:220-223 | After one successful create on a seat, any second create on it fails and changes nothing. When the ticket type and client are valid, the failure is the seat's NotFound. |
| `Reservations.CancelTwiceFails` | app/rest_api/routes.py:312-314 | After a successful cancel, cancelling the same reservation again gives AlreadyCancelled and changes nothing. |
| `Reservations.CreateThenCancel` | app/rest_api/routes.py:221-323 | Cancelling a freshly created reservation succeeds. The seats go back to exactly what they were, and the reservation stays stored as Cancelled. |
| `Reservations.CreateIsListed` | app/rest_api/routes.py:264-291 | After a create, the client's Confirmed listing contains the new reservation, with its seat and the seat's train. |
| `Reservations.CancelIsListed` | app/rest_api/routes.py:269-273 | After a cancel, the reservation is in the client's Cancelled listing and in no entry of the Confirmed one. |
| `Reservations.RebookingAddsSecondRow` | app/models.py:33 | Book, cancel and book the same seat again: the second booking succeeds and leaves two reservation rows on that seat. |
| `Engine.Database.FilterTrains` | app/rest_api/routes.py:18-83 | NotFound iff no train qualifies. Otherwise it returns one summary per qualifying train, in storage order, each with its per-class Available counts. |
| `Engine.Database.GetClientReservations` | app/rest_api/routes.py:253-293 | NotFound for an unknown client and for an empty (filtered) listing. Otherwise it returns one entry per matching reservation, in storage order, with the seat's train or None. |
| `Engine.Database.ListEntries` | app/rest_api/routes.py:282-291 | The entry loop returns one entry per given reservation, in order, each equal to that reservation's `View`. |
| `Engine.Database.CreateReservation` | app/rest_api/routes.py:205-246 | Updates the tables in place exactly as `Reservations.Create` describes, and keeps the store well-formed. |
| `Engine.Database.CancelReservation` | app/rest_api/routes.py:300-335 | Updates the tables in place exactly as `Reservations.Cancel` describes, and keeps the store well-formed. |

## Left out

- HTTP routing, query-parameter parsing, dependency injection, response serialisation and the mapping of errors to status codes. Errors are a result datatype carrying the routes' detail texts.
- The request and response schemas beyond the fields the routes fill in. The schema module the routes import is not part of this model; its fields are taken to match `app/api_b/schemas.py`.
- Registration, login and password hashing (`app/api_a/routes.py`, `app/soap_api/services.py`): they depend on foreign libraries. The one modellable rule, unique usernames, is part of `WellFormed`. Passwords are stored as opaque text.
- Seeding (`app/generate_trains.py`): it relies on randomness, the clock and floating-point fares. Seeded seats are Available, as is the column default (app/models.py:26); that much is kept (`Models.NewSeat`, `Models.AddSeatPreservesWellFormed`).
- Database wiring (`app/database.py`), sessions and concurrency. Each route is one sequential step on the store; concurrent requests are not modelled. The create route reads the Available seat (app/rest_api/routes.py:221) and later sets it Reserved unconditionally (app/rest_api/routes.py:235), so nothing in the source makes that one guarded step.
- The column default ticket type (Flexible) and the default reservation status: the create route always sets both explicitly, so no modelled operation reaches these defaults.
- `Reservations.NextReservationId`: SQLite's "largest key plus one" rule stops at the 64-bit ceiling, where SQLite picks some other unused key instead. The model's keys are unbounded and it always returns largest plus one.
- Departure before arrival: no table constraint or route enforces it, so `WellFormed` does not require it.
- Floating-point fares and date-times with time zones: fares are integers and date-times are timestamps.
- `Engine.Database.FilterTrains`: the model returns trains in storage order, a choice the grouped SQL query does not promise.
- `Queries.SortByFare`: equal fares keep their storage order in the model, whereas the database leaves their order open. Only the non-increasing order and the permutation are stated.

## Findings

| source | as written | input that shows it | evidently intended | confidence | as-written member | corrected member |
|---|---|---|---|---|---|---|
| app/models.py:33 | The seat/reservation relationship is declared one-to-one (`uselist=False` at line 33; the comment at line 59 says the same). Yet create (app/rest_api/routes.py:226-232) always adds a row, and cancel (app/rest_api/routes.py:322-323) keeps the old one. | In a well-formed store: create a reservation on seat S, cancel it, create again on S. The store now holds two reservation rows on S. | At most one Confirmed reservation per seat, while Cancelled rows stay as history. | medium, not executed | `Reservations.RebookingAddsSecondRow` | `Models.ReservedIffConfirmed` |
