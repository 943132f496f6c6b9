/** The persisted records of the booking system (trains, seats, clients and
    reservations), the in-memory store that holds them, the constraints the
    table declarations put on a store, and the status invariant that create
    and cancel keep. */
module Models {
  import opened Outcomes

  // The free-text status, class and ticket-type columns, as closed enumerations.
  datatype SeatClass = First | Business | Standard
  datatype SeatStatus = Available | Reserved
  datatype TicketType = Flexible | NonFlexible
  datatype ReservationStatus = Confirmed | Cancelled

  /** The text stored in the `seat_class` column. */
  function SeatClassName(c: SeatClass): string {
    match c
    case First => "First"
    case Business => "Business"
    case Standard => "Standard"
  }

  /** The text stored in the `ticket_type` column. */
  function TicketTypeName(t: TicketType): string {
    match t
    case Flexible => "Flexible"
    case NonFlexible => "NonFlexible"
  }

  /** The text stored in the reservation `status` column. */
  function ReservationStatusName(s: ReservationStatus): string {
    match s
    case Confirmed => "Confirmed"
    case Cancelled => "Cancelled"
  }

  /** Reads a caller-supplied ticket type; only the two names are accepted. */
  function ParseTicketType(s: string): (r: Option<TicketType>)
    ensures r.Some? <==> s == "Flexible" || s == "NonFlexible"
    ensures r.Some? ==> TicketTypeName(r.value) == s
  {
    if s == "Flexible" then Some(Flexible)
    else if s == "NonFlexible" then Some(NonFlexible)
    else None
  }

  lemma TicketTypeRoundTrip(t: TicketType)
    ensures ParseTicketType(TicketTypeName(t)) == Some(t)
  {
  }

  /** Date-times are integer timestamps. */
  datatype Train = Train(
    trainId: int,
    departureStation: string,
    arrivalStation: string,
    departureTime: int,
    arrivalTime: int)

  /** Fares are integers (hundredths of the currency unit). */
  datatype Seat = Seat(
    seatId: int,
    trainId: int,
    seatClass: SeatClass,
    status: SeatStatus,
    fare: int)

  datatype Client = Client(clientId: int, username: string, password: string)

  datatype Reservation = Reservation(
    reservationId: int,
    clientId: int,
    seatId: int,
    ticketType: TicketType,
    status: ReservationStatus)

  /** The four tables, each in storage order. */
  datatype Store = Store(
    trains: seq<Train>,
    seats: seq<Seat>,
    clients: seq<Client>,
    reservations: seq<Reservation>)

  /** A seat row as seeded: Available, which is also the column default. */
  function NewSeat(seatId: int, trainId: int, seatClass: SeatClass, fare: int): Seat {
    Seat(seatId, trainId, seatClass, Available, fare)
  }

  // Key columns of each table, in storage order.

  function TrainIds(ts: seq<Train>): seq<int> {
    seq(|ts|, k requires 0 <= k < |ts| => ts[k].trainId)
  }

  function SeatIds(ss: seq<Seat>): seq<int> {
    seq(|ss|, k requires 0 <= k < |ss| => ss[k].seatId)
  }

  function ClientIds(cs: seq<Client>): seq<int> {
    seq(|cs|, k requires 0 <= k < |cs| => cs[k].clientId)
  }

  function Usernames(cs: seq<Client>): seq<string> {
    seq(|cs|, k requires 0 <= k < |cs| => cs[k].username)
  }

  function ReservationIds(rs: seq<Reservation>): seq<int> {
    seq(|rs|, k requires 0 <= k < |rs| => rs[k].reservationId)
  }

  predicate Distinct<T(==)>(xs: seq<T>) {
    forall i, j :: 0 <= i < j < |xs| ==> xs[i] != xs[j]
  }

  // First-match lookups, as a query ending in `.first()` performs them.

  /** The position of the first element satisfying `p`, if any. */
  function FirstIndex<T>(s: seq<T>, p: T -> bool): (r: Option<nat>)
    ensures r.Some? ==> r.value < |s| && p(s[r.value])
    ensures r.Some? ==> forall j :: 0 <= j < r.value ==> !p(s[j])
    ensures r.None? ==> forall j :: 0 <= j < |s| ==> !p(s[j])
  {
    if s == [] then None
    else if p(s[0]) then Some(0)
    else match FirstIndex(s[1..], p)
      case None => None
      case Some(k) => Some(k + 1)
  }

  function TrainIndex(ts: seq<Train>, trainId: int): (r: Option<nat>)
    ensures r.Some? ==> r.value < |ts| && ts[r.value].trainId == trainId
    ensures r.Some? ==> forall j :: 0 <= j < r.value ==> ts[j].trainId != trainId
    ensures r.None? <==> trainId !in TrainIds(ts)
  {
    var r := FirstIndex(ts, (t: Train) => t.trainId == trainId);
    assert r.None? ==> forall j :: 0 <= j < |ts| ==> TrainIds(ts)[j] != trainId;
    assert r.Some? ==> TrainIds(ts)[r.value] == trainId;
    r
  }

  function SeatIndex(ss: seq<Seat>, seatId: int): (r: Option<nat>)
    ensures r.Some? ==> r.value < |ss| && ss[r.value].seatId == seatId
    ensures r.Some? ==> forall j :: 0 <= j < r.value ==> ss[j].seatId != seatId
    ensures r.None? <==> seatId !in SeatIds(ss)
  {
    var r := FirstIndex(ss, (s: Seat) => s.seatId == seatId);
    assert r.None? ==> forall j :: 0 <= j < |ss| ==> SeatIds(ss)[j] != seatId;
    assert r.Some? ==> SeatIds(ss)[r.value] == seatId;
    r
  }

  /** The first seat with this id whose status is Available. */
  function AvailableSeatIndex(ss: seq<Seat>, seatId: int): (r: Option<nat>)
    ensures r.Some? ==> r.value < |ss| && ss[r.value].seatId == seatId && ss[r.value].status == Available
    ensures r.None? <==> !HasAvailableSeat(ss, seatId)
  {
    FirstIndex(ss, (s: Seat) => s.seatId == seatId && s.status == Available)
  }

  predicate HasAvailableSeat(ss: seq<Seat>, seatId: int) {
    exists k :: 0 <= k < |ss| && ss[k].seatId == seatId && ss[k].status == Available
  }

  function ClientIndex(cs: seq<Client>, clientId: int): (r: Option<nat>)
    ensures r.Some? ==> r.value < |cs| && cs[r.value].clientId == clientId
    ensures r.None? <==> clientId !in ClientIds(cs)
  {
    var r := FirstIndex(cs, (c: Client) => c.clientId == clientId);
    assert r.None? ==> forall j :: 0 <= j < |cs| ==> ClientIds(cs)[j] != clientId;
    assert r.Some? ==> ClientIds(cs)[r.value] == clientId;
    r
  }

  function ReservationIndex(rs: seq<Reservation>, reservationId: int): (r: Option<nat>)
    ensures r.Some? ==> r.value < |rs| && rs[r.value].reservationId == reservationId
    ensures r.Some? ==> forall j :: 0 <= j < r.value ==> rs[j].reservationId != reservationId
    ensures r.None? <==> reservationId !in ReservationIds(rs)
  {
    var r := FirstIndex(rs, (x: Reservation) => x.reservationId == reservationId);
    assert r.None? ==> forall j :: 0 <= j < |rs| ==> ReservationIds(rs)[j] != reservationId;
    assert r.Some? ==> ReservationIds(rs)[r.value] == reservationId;
    r
  }

  // Confirmed reservations per seat.

  function ConfirmedHit(r: Reservation, seatId: int): nat {
    if r.seatId == seatId && r.status == Confirmed then 1 else 0
  }

  /** The number of Confirmed reservations on `seatId`. */
  function ConfirmedCount(rs: seq<Reservation>, seatId: int): nat {
    if rs == [] then 0
    else ConfirmedCount(rs[..|rs| - 1], seatId) + ConfirmedHit(rs[|rs| - 1], seatId)
  }

  lemma {:induction false} ConfirmedCountZero(rs: seq<Reservation>, seatId: int)
    requires forall k :: 0 <= k < |rs| ==> rs[k].seatId != seatId
    ensures ConfirmedCount(rs, seatId) == 0
  {
    if rs != [] {
      ConfirmedCountZero(rs[..|rs| - 1], seatId);
    }
  }

  lemma ConfirmedCountAppend(rs: seq<Reservation>, r: Reservation, seatId: int)
    ensures ConfirmedCount(rs + [r], seatId) == ConfirmedCount(rs, seatId) + ConfirmedHit(r, seatId)
  {
    assert (rs + [r])[..|rs|] == rs;
  }

  /** Replacing one reservation changes the count by the difference of the two hits. */
  lemma {:induction false} ConfirmedCountUpdate(rs: seq<Reservation>, j: nat, r: Reservation, seatId: int)
    requires j < |rs|
    ensures ConfirmedCount(rs[j := r], seatId) + ConfirmedHit(rs[j], seatId)
         == ConfirmedCount(rs, seatId) + ConfirmedHit(r, seatId)
  {
    var n := |rs| - 1;
    if j == n {
      assert rs[j := r][..n] == rs[..n];
    } else {
      assert rs[j := r][..n] == rs[..n][j := r];
      ConfirmedCountUpdate(rs[..n], j, r, seatId);
    }
  }

  // The constraints a store must meet.

  /** Primary keys are unique, and so is `username`. */
  predicate UniqueKeys(st: Store) {
    && Distinct(TrainIds(st.trains))
    && Distinct(SeatIds(st.seats))
    && Distinct(ClientIds(st.clients))
    && Distinct(Usernames(st.clients))
    && Distinct(ReservationIds(st.reservations))
  }

  /** Every seat names an existing train; every reservation an existing client and seat. */
  predicate ReferencesResolve(st: Store) {
    && (forall k :: 0 <= k < |st.seats| ==> st.seats[k].trainId in TrainIds(st.trains))
    && (forall k :: 0 <= k < |st.reservations| ==>
          st.reservations[k].clientId in ClientIds(st.clients)
          && st.reservations[k].seatId in SeatIds(st.seats))
  }

  /** The engine's invariant, stated by no declaration: a seat is Reserved
      exactly when one Confirmed reservation is on it, and Available exactly
      when none is. */
  predicate SeatStatusConsistent(st: Store) {
    forall k :: 0 <= k < |st.seats| ==>
      ConfirmedCount(st.reservations, st.seats[k].seatId)
        == (if st.seats[k].status == Reserved then 1 else 0)
  }

  predicate WellFormed(st: Store) {
    UniqueKeys(st) && ReferencesResolve(st) && SeatStatusConsistent(st)
  }

  /** In a well-formed store no seat carries two Confirmed reservations, and a
      seat is Reserved iff some Confirmed reservation is on it. */
  lemma {:induction false} ReservedIffConfirmed(st: Store, k: nat)
    requires WellFormed(st) && k < |st.seats|
    ensures ConfirmedCount(st.reservations, st.seats[k].seatId) <= 1
    ensures st.seats[k].status == Reserved <==>
      exists j :: 0 <= j < |st.reservations| && st.reservations[j].seatId == st.seats[k].seatId
                  && st.reservations[j].status == Confirmed
  {
    var rs, id := st.reservations, st.seats[k].seatId;
    if exists j :: 0 <= j < |rs| && rs[j].seatId == id && rs[j].status == Confirmed {
      var j :| 0 <= j < |rs| && rs[j].seatId == id && rs[j].status == Confirmed;
      ConfirmedCountUpdate(rs, j, rs[j].(status := Cancelled), id);
    } else {
      ConfirmedCountNone(rs, id);
    }
  }

  lemma {:induction false} ConfirmedCountNone(rs: seq<Reservation>, seatId: int)
    requires forall j :: 0 <= j < |rs| ==> !(rs[j].seatId == seatId && rs[j].status == Confirmed)
    ensures ConfirmedCount(rs, seatId) == 0
  {
    if rs != [] {
      ConfirmedCountNone(rs[..|rs| - 1], seatId);
    }
  }

  /** Booking: appending a Confirmed reservation with a fresh id, for a
      stored client, on an Available seat that is flipped to Reserved. */
  lemma BookKeepsWellFormed(st: Store, i: nat, r: Reservation)
    requires WellFormed(st)
    requires i < |st.seats| && st.seats[i].status == Available
    requires r.seatId == st.seats[i].seatId && r.status == Confirmed
    requires r.clientId in ClientIds(st.clients) && r.reservationId !in ReservationIds(st.reservations)
    ensures WellFormed(st.(reservations := st.reservations + [r],
                           seats := st.seats[i := st.seats[i].(status := Reserved)]))
  {
    var rs := st.reservations;
    var st' := st.(reservations := rs + [r], seats := st.seats[i := st.seats[i].(status := Reserved)]);
    assert SeatIds(st'.seats) == SeatIds(st.seats);
    assert ReservationIds(st'.reservations) == ReservationIds(rs) + [r.reservationId];
    assert UniqueKeys(st');
    assert r.seatId in SeatIds(st.seats) by {
      assert SeatIds(st.seats)[i] == r.seatId;
    }
    forall k | 0 <= k < |st'.reservations|
      ensures st'.reservations[k].clientId in ClientIds(st'.clients)
      ensures st'.reservations[k].seatId in SeatIds(st'.seats)
    {
      if k < |rs| {
        assert st'.reservations[k] == rs[k];
      }
    }
    assert ReferencesResolve(st');
    forall k | 0 <= k < |st'.seats|
      ensures ConfirmedCount(st'.reservations, st'.seats[k].seatId)
           == (if st'.seats[k].status == Reserved then 1 else 0)
    {
      ConfirmedCountAppend(rs, r, st.seats[k].seatId);
      if k != i {
        assert SeatIds(st.seats)[k] != SeatIds(st.seats)[i];
      }
    }
  }

  /** Releasing: a Confirmed reservation turned Cancelled and a seat with its
      seat id turned Available. */
  lemma ReleaseKeepsWellFormed(st: Store, j: nat, i: nat)
    requires WellFormed(st)
    requires j < |st.reservations| && st.reservations[j].status == Confirmed
    requires i < |st.seats| && st.seats[i].seatId == st.reservations[j].seatId
    ensures WellFormed(st.(reservations := st.reservations[j := st.reservations[j].(status := Cancelled)],
                           seats := st.seats[i := st.seats[i].(status := Available)]))
  {
    var rs := st.reservations;
    var st' := st.(reservations := rs[j := rs[j].(status := Cancelled)],
                   seats := st.seats[i := st.seats[i].(status := Available)]);
    assert SeatIds(st'.seats) == SeatIds(st.seats);
    assert ReservationIds(st'.reservations) == ReservationIds(rs);
    assert UniqueKeys(st');
    forall k | 0 <= k < |st'.reservations|
      ensures st'.reservations[k].clientId in ClientIds(st'.clients)
      ensures st'.reservations[k].seatId in SeatIds(st'.seats)
    {
      assert st'.reservations[k].clientId == rs[k].clientId && st'.reservations[k].seatId == rs[k].seatId;
    }
    assert ReferencesResolve(st');
    forall k | 0 <= k < |st'.seats|
      ensures ConfirmedCount(st'.reservations, st'.seats[k].seatId)
           == (if st'.seats[k].status == Reserved then 1 else 0)
    {
      ConfirmedCountUpdate(rs, j, rs[j].(status := Cancelled), st.seats[k].seatId);
      if k != i {
        assert SeatIds(st.seats)[k] != SeatIds(st.seats)[i];
      }
    }
  }

  /** Seeding an Available seat, on an existing train and under
      a fresh id, keeps a store well-formed. */
  lemma AddSeatPreservesWellFormed(st: Store, seatId: int, trainId: int, seatClass: SeatClass, fare: int)
    requires WellFormed(st)
    requires trainId in TrainIds(st.trains) && seatId !in SeatIds(st.seats)
    ensures WellFormed(st.(seats := st.seats + [NewSeat(seatId, trainId, seatClass, fare)]))
  {
    var s := NewSeat(seatId, trainId, seatClass, fare);
    var st' := st.(seats := st.seats + [s]);
    assert SeatIds(st'.seats) == SeatIds(st.seats) + [seatId];
    forall k | 0 <= k < |st.reservations|
      ensures st.reservations[k].seatId != seatId
    {
      assert st.reservations[k].seatId in SeatIds(st.seats);
    }
    ConfirmedCountZero(st.reservations, seatId);
    assert st'.seats[|st.seats|] == s;
  }
}
