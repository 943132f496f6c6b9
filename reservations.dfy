/** The state-changing side of the booking routes, as functions from a store
    value to the response and the next store value: creating a reservation
    on an Available seat and cancelling a Confirmed one. */
module Reservations {
  import opened Outcomes
  import opened Models
  import opened Queries

  /** The reservation record both routes answer with. */
  datatype Receipt = Receipt(
    reservationId: int,
    clientId: int,
    seatId: int,
    trainId: int,
    ticketType: TicketType,
    status: ReservationStatus)

  /** A route's answer together with the store it leaves behind. */
  datatype Transition = Transition(result: Result<Receipt>, store: Store)

  /** The key the database gives a new reservation row: one more than the
      largest key in use, or 1 for an empty table. */
  function NextReservationId(rs: seq<Reservation>): (n: int)
    ensures forall k :: 0 <= k < |rs| ==> rs[k].reservationId < n
    ensures rs != [] ==> exists k :: 0 <= k < |rs| && rs[k].reservationId == n - 1
    ensures rs == [] ==> n == 1
  {
    if rs == [] then 1
    else
      var last := rs[|rs| - 1].reservationId + 1;
      if |rs| == 1 then last
      else
        var m := NextReservationId(rs[..|rs| - 1]);
        assert exists k :: 0 <= k < |rs| - 1 && rs[k].reservationId == m - 1 by {
          var k :| 0 <= k < |rs| - 1 && rs[..|rs| - 1][k].reservationId == m - 1;
          assert rs[k] == rs[..|rs| - 1][k];
        }
        if last > m then last else m
  }

  predicate IsTicketTypeName(s: string) {
    s == "Flexible" || s == "NonFlexible"
  }

  /** What a successful create did: one Confirmed reservation with a fresh id
      appended for the client, seat and ticket type; an Available seat with
      that id flipped to Reserved; trains and clients untouched. */
  ghost predicate Booked(st: Store, st': Store, rc: Receipt, clientId: int, seatId: int, ticketType: string) {
    && rc.clientId == clientId && rc.seatId == seatId
    && TicketTypeName(rc.ticketType) == ticketType && rc.status == Confirmed
    && rc.reservationId !in ReservationIds(st.reservations)
    && st'.reservations == st.reservations + [Reservation(rc.reservationId, clientId, seatId, rc.ticketType, Confirmed)]
    && st'.trains == st.trains && st'.clients == st.clients
    && exists i :: 0 <= i < |st.seats| && st.seats[i].seatId == seatId && st.seats[i].status == Available
         && rc.trainId == st.seats[i].trainId
         && st'.seats == st.seats[i := st.seats[i].(status := Reserved)]
  }

  /** `create_reservation`: the ticket type, the client and the seat are
      checked in that order; the first failing check decides the error and
      leaves the store as it was. */
  function Create(st: Store, clientId: int, seatId: int, ticketType: string): (out: Transition)
    ensures out.result.Err? ==> out.store == st
    ensures out.result == Err(InvalidArgument(InvalidTicketType)) <==> !IsTicketTypeName(ticketType)
    ensures out.result == Err(NotFound(ClientNotFound)) <==>
      IsTicketTypeName(ticketType) && clientId !in ClientIds(st.clients)
    ensures out.result == Err(NotFound(SeatUnavailable)) <==>
      IsTicketTypeName(ticketType) && clientId in ClientIds(st.clients) && !HasAvailableSeat(st.seats, seatId)
    ensures out.result.Ok? <==>
      IsTicketTypeName(ticketType) && clientId in ClientIds(st.clients) && HasAvailableSeat(st.seats, seatId)
    ensures out.result.Ok? ==> Booked(st, out.store, out.result.value, clientId, seatId, ticketType)
  {
    match ParseTicketType(ticketType)
    case None => Transition(Err(InvalidArgument(InvalidTicketType)), st)
    case Some(t) =>
      if ClientIndex(st.clients, clientId).None? then Transition(Err(NotFound(ClientNotFound)), st)
      else match AvailableSeatIndex(st.seats, seatId)
        case None => Transition(Err(NotFound(SeatUnavailable)), st)
        case Some(i) =>
          var id := NextReservationId(st.reservations);
          var seat := st.seats[i];
          assert id !in ReservationIds(st.reservations);
          Transition(
            Ok(Receipt(id, clientId, seatId, seat.trainId, t, Confirmed)),
            st.(reservations := st.reservations + [Reservation(id, clientId, seatId, t, Confirmed)],
                seats := st.seats[i := seat.(status := Reserved)]))
  }

  /** Position `j` holds the first reservation with this id. */
  predicate FirstWithId(rs: seq<Reservation>, j: int, reservationId: int) {
    && 0 <= j < |rs| && rs[j].reservationId == reservationId
    && forall k :: 0 <= k < j ==> rs[k].reservationId != reservationId
  }

  predicate FirstSeatWithId(ss: seq<Seat>, i: int, seatId: int) {
    && 0 <= i < |ss| && ss[i].seatId == seatId
    && forall k :: 0 <= k < i ==> ss[k].seatId != seatId
  }

  /** What a successful cancel did: the reservation turned Cancelled, its seat
      turned Available, trains and clients untouched. */
  ghost predicate Released(st: Store, st': Store, rc: Receipt, reservationId: int) {
    && st'.trains == st.trains && st'.clients == st.clients
    && exists j, i ::
         && FirstWithId(st.reservations, j, reservationId)
         && st.reservations[j].status == Confirmed
         && FirstSeatWithId(st.seats, i, st.reservations[j].seatId)
         && st'.reservations == st.reservations[j := st.reservations[j].(status := Cancelled)]
         && st'.seats == st.seats[i := st.seats[i].(status := Available)]
         && rc == Receipt(reservationId, st.reservations[j].clientId, st.reservations[j].seatId,
                          st.seats[i].trainId, st.reservations[j].ticketType, Cancelled)
  }

  /** `cancel_reservation`: an unknown reservation is NotFound, a Cancelled one
      is rejected, a reservation whose seat is gone is NotFound; every failure
      leaves the store as it was. */
  function Cancel(st: Store, reservationId: int): (out: Transition)
    ensures out.result.Err? ==> out.store == st
    ensures out.result == Err(NotFound(ReservationNotFound)) <==> reservationId !in ReservationIds(st.reservations)
    ensures out.result == Err(AlreadyCancelled(ReservationCancelled)) <==>
      exists j :: FirstWithId(st.reservations, j, reservationId) && st.reservations[j].status == Cancelled
    ensures out.result == Err(NotFound(AssociatedSeatNotFound)) <==>
      exists j :: FirstWithId(st.reservations, j, reservationId) && st.reservations[j].status == Confirmed
                  && st.reservations[j].seatId !in SeatIds(st.seats)
    ensures out.result.Ok? <==>
      exists j :: FirstWithId(st.reservations, j, reservationId) && st.reservations[j].status == Confirmed
                  && st.reservations[j].seatId in SeatIds(st.seats)
    ensures out.result.Ok? ==> Released(st, out.store, out.result.value, reservationId)
  {
    match ReservationIndex(st.reservations, reservationId)
    case None => Transition(Err(NotFound(ReservationNotFound)), st)
    case Some(j) =>
      var r := st.reservations[j];
      assert FirstWithId(st.reservations, j, reservationId);
      if r.status == Cancelled then Transition(Err(AlreadyCancelled(ReservationCancelled)), st)
      else match SeatIndex(st.seats, r.seatId)
        case None =>
          assert FirstWithId(st.reservations, j, reservationId) && st.reservations[j].status == Confirmed
                 && st.reservations[j].seatId !in SeatIds(st.seats);
          Transition(Err(NotFound(AssociatedSeatNotFound)), st)
        case Some(i) =>
          var seat := st.seats[i];
          assert FirstSeatWithId(st.seats, i, r.seatId);
          assert SeatIds(st.seats)[i] == r.seatId;
          assert FirstWithId(st.reservations, j, reservationId) && st.reservations[j].status == Confirmed
                 && st.reservations[j].seatId in SeatIds(st.seats);
          Transition(
            Ok(Receipt(reservationId, r.clientId, r.seatId, seat.trainId, r.ticketType, Cancelled)),
            st.(reservations := st.reservations[j := r.(status := Cancelled)],
                seats := st.seats[i := seat.(status := Available)]))
  }

  // ---- The invariant and how the two operations combine ----------------

  /** Creating a reservation keeps every constraint of a well-formed store,
      in particular "Reserved iff one Confirmed reservation". */
  lemma CreatePreservesWellFormed(st: Store, clientId: int, seatId: int, ticketType: string)
    requires WellFormed(st)
    ensures WellFormed(Create(st, clientId, seatId, ticketType).store)
  {
    var out := Create(st, clientId, seatId, ticketType);
    if out.result.Ok? {
      var rc := out.result.value;
      var i :| 0 <= i < |st.seats| && st.seats[i].seatId == seatId && st.seats[i].status == Available
               && out.store.seats == st.seats[i := st.seats[i].(status := Reserved)];
      BookKeepsWellFormed(st, i, Reservation(rc.reservationId, clientId, seatId, rc.ticketType, Confirmed));
    }
  }

  /** Cancelling a reservation keeps every constraint of a well-formed store. */
  lemma CancelPreservesWellFormed(st: Store, reservationId: int)
    requires WellFormed(st)
    ensures WellFormed(Cancel(st, reservationId).store)
  {
    var out := Cancel(st, reservationId);
    if out.result.Ok? {
      var rs := st.reservations;
      var j, i :| && FirstWithId(rs, j, reservationId) && rs[j].status == Confirmed
                  && FirstSeatWithId(st.seats, i, rs[j].seatId)
                  && out.store.reservations == rs[j := rs[j].(status := Cancelled)]
                  && out.store.seats == st.seats[i := st.seats[i].(status := Available)];
      ReleaseKeepsWellFormed(st, j, i);
    }
  }

  /** Exactly-once assignment: once a create on a seat succeeded, any further
      create on that seat fails, with the seat error whenever the ticket type
      and client pass. */
  lemma CreateTwiceFails(st: Store, c1: int, t1: string, c2: int, t2: string, seatId: int)
    requires WellFormed(st)
    requires Create(st, c1, seatId, t1).result.Ok?
    ensures var st' := Create(st, c1, seatId, t1).store;
      && Create(st', c2, seatId, t2).result.Err?
      && Create(st', c2, seatId, t2).store == st'
      && (IsTicketTypeName(t2) && c2 in ClientIds(st'.clients) ==>
            Create(st', c2, seatId, t2).result == Err(NotFound(SeatUnavailable)))
  {
    var st' := Create(st, c1, seatId, t1).store;
    var i :| 0 <= i < |st.seats| && st.seats[i].seatId == seatId && st.seats[i].status == Available
             && st'.seats == st.seats[i := st.seats[i].(status := Reserved)];
    forall k | 0 <= k < |st'.seats| && st'.seats[k].seatId == seatId
      ensures st'.seats[k].status == Reserved
    {
      assert SeatIds(st.seats)[k] == SeatIds(st.seats)[i];
    }
    assert !HasAvailableSeat(st'.seats, seatId);
  }

  /** Cancelling is terminal: a second cancel of the same reservation is
      rejected and changes nothing. */
  lemma CancelTwiceFails(st: Store, reservationId: int)
    requires Cancel(st, reservationId).result.Ok?
    ensures var st' := Cancel(st, reservationId).store;
      Cancel(st', reservationId) == Transition(Err(AlreadyCancelled(ReservationCancelled)), st')
  {
    var st' := Cancel(st, reservationId).store;
    var rs := st.reservations;
    var j, i :| && FirstWithId(rs, j, reservationId) && rs[j].status == Confirmed
                && FirstSeatWithId(st.seats, i, rs[j].seatId)
                && st'.reservations == rs[j := rs[j].(status := Cancelled)]
                && st'.seats == st.seats[i := st.seats[i].(status := Available)];
    assert FirstWithId(st'.reservations, j, reservationId) && st'.reservations[j].status == Cancelled;
  }

  /** Cancelling the reservation a create just made succeeds and gives back
      the seats exactly as they were; the reservation stays, Cancelled. */
  lemma CreateThenCancel(st: Store, clientId: int, seatId: int, ticketType: string)
    requires WellFormed(st)
    requires Create(st, clientId, seatId, ticketType).result.Ok?
    ensures var created := Create(st, clientId, seatId, ticketType);
      var rc := created.result.value;
      var cancelled := Cancel(created.store, rc.reservationId);
      && cancelled.result == Ok(rc.(status := Cancelled))
      && cancelled.store.seats == st.seats
      && cancelled.store.reservations
         == st.reservations + [Reservation(rc.reservationId, clientId, seatId, rc.ticketType, Cancelled)]
  {
    var created := Create(st, clientId, seatId, ticketType);
    var st', rc := created.store, created.result.value;
    var rs := st.reservations;
    var i :| 0 <= i < |st.seats| && st.seats[i].seatId == seatId && st.seats[i].status == Available
             && rc.trainId == st.seats[i].trainId
             && st'.seats == st.seats[i := st.seats[i].(status := Reserved)];
    BookThenRelease(st, i, Reservation(rc.reservationId, clientId, seatId, rc.ticketType, Confirmed));
  }

  /** Cancelling a row just appended on a seat just flipped to Reserved gives
      the seats back and keeps the row, Cancelled. */
  lemma BookThenRelease(st: Store, i: nat, r: Reservation)
    requires Distinct(SeatIds(st.seats)) && i < |st.seats| && st.seats[i].status == Available
    requires r.seatId == st.seats[i].seatId && r.status == Confirmed
    requires r.reservationId !in ReservationIds(st.reservations)
    ensures var booked := st.(reservations := st.reservations + [r],
                              seats := st.seats[i := st.seats[i].(status := Reserved)]);
      Cancel(booked, r.reservationId) == Transition(
        Ok(Receipt(r.reservationId, r.clientId, r.seatId, st.seats[i].trainId, r.ticketType, Cancelled)),
        booked.(reservations := st.reservations + [r.(status := Cancelled)], seats := st.seats))
  {
    var rs := st.reservations;
    var booked := st.(reservations := rs + [r], seats := st.seats[i := st.seats[i].(status := Reserved)]);
    forall k | 0 <= k < |rs| ensures booked.reservations[k].reservationId != r.reservationId {
      assert booked.reservations[k] == rs[k];
      assert ReservationIds(rs)[k] == rs[k].reservationId;
    }
    forall k | 0 <= k < i ensures booked.seats[k].seatId != r.seatId {
      assert SeatIds(st.seats)[k] != SeatIds(st.seats)[i];
    }
    CancelAt(booked, |rs|, i);
    assert booked.seats[i := booked.seats[i].(status := Available)] == st.seats;
    assert (rs + [r])[|rs| := r.(status := Cancelled)] == rs + [r.(status := Cancelled)];
  }

  /** Cancel at known positions: the first row under the key is Confirmed and
      its seat is the first one with that id. */
  lemma CancelAt(st: Store, j: nat, i: nat)
    requires j < |st.reservations| && st.reservations[j].status == Confirmed
    requires forall k :: 0 <= k < j ==> st.reservations[k].reservationId != st.reservations[j].reservationId
    requires FirstSeatWithId(st.seats, i, st.reservations[j].seatId)
    ensures var r := st.reservations[j];
      Cancel(st, r.reservationId) == Transition(
        Ok(Receipt(r.reservationId, r.clientId, r.seatId, st.seats[i].trainId, r.ticketType, Cancelled)),
        st.(reservations := st.reservations[j := r.(status := Cancelled)],
            seats := st.seats[i := st.seats[i].(status := Available)]))
  {
    var r := st.reservations[j];
    var found := ReservationIndex(st.reservations, r.reservationId);
    assert ReservationIds(st.reservations)[j] == r.reservationId;
    assert found == Some(j);
    var seatAt := SeatIndex(st.seats, r.seatId);
    assert SeatIds(st.seats)[i] == r.seatId;
    assert seatAt == Some(i);
  }

  /** After a successful create the client's Confirmed listing shows the new
      reservation, with the seat and the seat's train. */
  lemma CreateIsListed(st: Store, clientId: int, seatId: int, ticketType: string)
    requires WellFormed(st)
    requires Create(st, clientId, seatId, ticketType).result.Ok?
    ensures var created := Create(st, clientId, seatId, ticketType);
      var rc := created.result.value;
      var r := Reservation(rc.reservationId, clientId, seatId, rc.ticketType, Confirmed);
      && r in ReservationsOf(created.store.reservations, clientId, Some("Confirmed"))
      && View(r, created.store.seats) == ReservationView(rc.reservationId, seatId, Some(rc.trainId), rc.ticketType, Confirmed)
  {
    var created := Create(st, clientId, seatId, ticketType);
    var st', rc := created.store, created.result.value;
    var i :| 0 <= i < |st.seats| && st.seats[i].seatId == seatId && st.seats[i].status == Available
             && rc.trainId == st.seats[i].trainId
             && st'.seats == st.seats[i := st.seats[i].(status := Reserved)];
    var r := Reservation(rc.reservationId, clientId, seatId, rc.ticketType, Confirmed);
    BookedRowListed(st.reservations, st.seats, i, r);
  }

  /** A booked row is listed for its client under its status, and its view
      carries the train of the seat it flipped. */
  lemma BookedRowListed(rs: seq<Reservation>, ss: seq<Seat>, i: nat, r: Reservation)
    requires Distinct(SeatIds(ss)) && i < |ss| && r.seatId == ss[i].seatId
    ensures r in ReservationsOf(rs + [r], r.clientId, Some(ReservationStatusName(r.status)))
    ensures View(r, ss[i := ss[i].(status := Reserved)]).trainId == Some(ss[i].trainId)
  {
    AppendedRowListed(rs, r);
    var ss' := ss[i := ss[i].(status := Reserved)];
    assert SeatIds(ss') == SeatIds(ss) by {
      assert forall k :: 0 <= k < |ss| ==> ss'[k].seatId == ss[k].seatId;
    }
    TrainOfUniqueSeat(ss', i);
  }

  /** A row appended to the table is listed for its client under its own status. */
  lemma AppendedRowListed(rs: seq<Reservation>, r: Reservation)
    ensures r in ReservationsOf(rs + [r], r.clientId, Some(ReservationStatusName(r.status)))
  {
    var f := Some(ReservationStatusName(r.status));
    ReservationsOfConcat(rs, [r], r.clientId, f);
    assert [r][1..] == [];
    assert ReservationsOf([r], r.clientId, f) == [r];
  }

  /** After a successful cancel the reservation shows in the client's
      Cancelled listing and no longer in the Confirmed one. */
  lemma CancelIsListed(st: Store, reservationId: int)
    requires WellFormed(st)
    requires Cancel(st, reservationId).result.Ok?
    ensures var cancelled := Cancel(st, reservationId);
      var rc := cancelled.result.value;
      && (exists r :: r in ReservationsOf(cancelled.store.reservations, rc.clientId, Some("Cancelled"))
                      && r.reservationId == reservationId)
      && (forall r :: r in ReservationsOf(cancelled.store.reservations, rc.clientId, Some("Confirmed"))
                      ==> r.reservationId != reservationId)
  {
    var cancelled := Cancel(st, reservationId);
    var st', rc := cancelled.store, cancelled.result.value;
    var rs := st.reservations;
    var j, i :| && FirstWithId(rs, j, reservationId) && rs[j].status == Confirmed
                && FirstSeatWithId(st.seats, i, rs[j].seatId)
                && st'.reservations == rs[j := rs[j].(status := Cancelled)]
                && rc == Receipt(reservationId, rs[j].clientId, rs[j].seatId,
                                 st.seats[i].trainId, rs[j].ticketType, Cancelled);
    CancelledRowListed(rs, j);
  }

  /** With unique keys, cancelling row `j` puts it in its client's Cancelled
      listing and leaves no row under its key in the Confirmed one. */
  lemma CancelledRowListed(rs: seq<Reservation>, j: nat)
    requires Distinct(ReservationIds(rs)) && j < |rs|
    ensures var rs' := rs[j := rs[j].(status := Cancelled)];
      && (exists r :: r in ReservationsOf(rs', rs[j].clientId, Some("Cancelled"))
                      && r.reservationId == rs[j].reservationId)
      && (forall r :: r in ReservationsOf(rs', rs[j].clientId, Some("Confirmed"))
                      ==> r.reservationId != rs[j].reservationId)
  {
    var rs' := rs[j := rs[j].(status := Cancelled)];
    assert rs'[j] in rs';
    assert rs'[j] in ReservationsOf(rs', rs[j].clientId, Some("Cancelled"));
    OnlyRowWithId(rs, j);
    forall r | r in ReservationsOf(rs', rs[j].clientId, Some("Confirmed"))
      ensures r.reservationId != rs[j].reservationId
    {
      assert r in rs' && r.status == Confirmed;
    }
  }

  /** With unique keys, after cancelling row `j` every row under its key is Cancelled. */
  lemma OnlyRowWithId(rs: seq<Reservation>, j: nat)
    requires Distinct(ReservationIds(rs)) && j < |rs|
    ensures forall r :: r in rs[j := rs[j].(status := Cancelled)] && r.reservationId == rs[j].reservationId
                        ==> r.status == Cancelled
  {
    var rs' := rs[j := rs[j].(status := Cancelled)];
    forall r | r in rs' && r.reservationId == rs[j].reservationId
      ensures r.status == Cancelled
    {
      var k :| 0 <= k < |rs'| && rs'[k] == r;
      assert ReservationIds(rs)[k] == ReservationIds(rs)[j];
    }
  }

  /** The one-to-one seat/reservation relationship as the table declarations
      state it: no two reservation rows on the same seat. */
  predicate OneReservationRowPerSeat(st: Store) {
    forall a, b :: 0 <= a < b < |st.reservations| ==> st.reservations[a].seatId != st.reservations[b].seatId
  }

  /** Booking, cancelling and booking the same seat again succeeds and leaves
      two reservation rows on that seat, so the declared one-to-one
      relationship does not hold of the data the routes produce. */
  lemma RebookingAddsSecondRow(st: Store, clientId: int, seatId: int, ticketType: string)
    requires WellFormed(st)
    requires Create(st, clientId, seatId, ticketType).result.Ok?
    ensures var first := Create(st, clientId, seatId, ticketType);
      var cancelled := Cancel(first.store, first.result.value.reservationId);
      var second := Create(cancelled.store, clientId, seatId, ticketType);
      && second.result.Ok?
      && !OneReservationRowPerSeat(second.store)
  {
    var first := Create(st, clientId, seatId, ticketType);
    CreateThenCancel(st, clientId, seatId, ticketType);
    var cancelled := Cancel(first.store, first.result.value.reservationId);
    var n := |st.reservations|;
    assert cancelled.store.clients == st.clients;
    assert HasAvailableSeat(cancelled.store.seats, seatId);
    var second := Create(cancelled.store, clientId, seatId, ticketType);
    assert second.store.reservations[n].seatId == seatId;
    assert second.store.reservations[n + 1].seatId == seatId;
  }
}
