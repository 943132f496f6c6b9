/** The booking store as the routes use it: one object whose four tables the
    routes read and update in place.  The filter and listing routes build
    their answers with a loop; create and cancel change rows in place. */
module Engine {
  import opened Outcomes
  import opened Models
  import opened Queries
  import opened Reservations

  class Database {
    var trains: seq<Train>
    var seats: seq<Seat>
    var clients: seq<Client>
    var reservations: seq<Reservation>

    /** The current contents of the four tables. */
    function Snapshot(): Store
      reads this
    {
      Store(trains, seats, clients, reservations)
    }

    ghost predicate Valid()
      reads this
    {
      WellFormed(Snapshot())
    }

    constructor (st: Store)
      ensures Snapshot() == st
      ensures WellFormed(st) ==> Valid()
    {
      trains, seats, clients, reservations := st.trains, st.seats, st.clients, st.reservations;
    }

    /** `filter_trains`: NotFound when no train qualifies; otherwise one
        summary per qualifying train, in storage order, with live per-class
        counts. */
    method FilterTrains(q: TrainQuery) returns (r: Result<seq<TrainSummary>>)
      ensures var matched := MatchingTrains(trains, seats, q);
        && (r.Err? <==> matched == [])
        && (r.Err? ==> r.error == NotFound(NoTrainsFound))
        && (r.Ok? ==> |r.value| == |matched|
                      && forall k :: 0 <= k < |matched| ==> r.value[k] == Summarize(matched[k], seats))
    {
      var matched := MatchingTrains(trains, seats, q);
      if matched == [] {
        return Err(NotFound(NoTrainsFound));
      }
      var result: seq<TrainSummary> := [];
      for i := 0 to |matched|
        invariant |result| == i
        invariant forall k :: 0 <= k < i ==> result[k] == Summarize(matched[k], seats)
      {
        result := result + [Summarize(matched[i], seats)];
      }
      r := Ok(result);
    }

    /** `get_client_reservations`: NotFound for an unknown client and for an
        empty (filtered) listing; otherwise one entry per matching
        reservation, in storage order. */
    method GetClientReservations(clientId: int, reservationStatus: Option<string>)
      returns (r: Result<seq<ReservationView>>)
      ensures clientId !in ClientIds(clients) ==> r == Err(NotFound(ClientNotFound))
      ensures var matched := ReservationsOf(reservations, clientId, ActiveText(reservationStatus));
        && (clientId in ClientIds(clients) && matched == [] ==> r == Err(NotFound(NoReservationsFound)))
        && (r.Ok? <==> clientId in ClientIds(clients) && matched != [])
        && (r.Ok? ==> |r.value| == |matched|
                      && forall k :: 0 <= k < |matched| ==> r.value[k] == View(matched[k], seats))
    {
      if ClientIndex(clients, clientId).None? {
        return Err(NotFound(ClientNotFound));
      }
      var matched := ReservationsOf(reservations, clientId, ActiveText(reservationStatus));
      if matched == [] {
        return Err(NotFound(NoReservationsFound));
      }
      var result := ListEntries(matched);
      r := Ok(result);
    }

    /** The entry loop of `get_client_reservations`: for each reservation,
        its columns and the train of its seat, looked up by seat id. */
    method ListEntries(matched: seq<Reservation>) returns (result: seq<ReservationView>)
      ensures |result| == |matched|
      ensures forall k :: 0 <= k < |matched| ==> result[k] == View(matched[k], seats)
    {
      result := [];
      for i := 0 to |matched|
        invariant |result| == i
        invariant forall k :: 0 <= k < i ==> result[k] == View(matched[k], seats)
      {
        var reservation := matched[i];
        var trainId := TrainOfSeat(seats, reservation.seatId);
        result := result + [ReservationView(reservation.reservationId, reservation.seatId, trainId,
                                            reservation.ticketType, reservation.status)];
      }
    }

    /** `create_reservation`, updating the tables in place. */
    method CreateReservation(clientId: int, seatId: int, ticketType: string) returns (r: Result<Receipt>)
      modifies this
      ensures r == Create(old(Snapshot()), clientId, seatId, ticketType).result
      ensures Snapshot() == Create(old(Snapshot()), clientId, seatId, ticketType).store
      ensures old(Valid()) ==> Valid()
    {
      ghost var before := Snapshot();
      var t := ParseTicketType(ticketType);
      if t.None? {
        return Err(InvalidArgument(InvalidTicketType));
      }
      if ClientIndex(clients, clientId).None? {
        return Err(NotFound(ClientNotFound));
      }
      var found := AvailableSeatIndex(seats, seatId);
      if found.None? {
        return Err(NotFound(SeatUnavailable));
      }
      var i := found.value;
      var reservation := Reservation(NextReservationId(reservations), clientId, seatId, t.value, Confirmed);
      reservations := reservations + [reservation];
      var seat := seats[i];
      seats := seats[i := seat.(status := Reserved)];
      r := Ok(Receipt(reservation.reservationId, clientId, seatId, seat.trainId, reservation.ticketType,
                      reservation.status));
      if WellFormed(before) {
        CreatePreservesWellFormed(before, clientId, seatId, ticketType);
      }
    }

    /** `cancel_reservation`, updating the tables in place. */
    method CancelReservation(reservationId: int) returns (r: Result<Receipt>)
      modifies this
      ensures r == Cancel(old(Snapshot()), reservationId).result
      ensures Snapshot() == Cancel(old(Snapshot()), reservationId).store
      ensures old(Valid()) ==> Valid()
    {
      ghost var before := Snapshot();
      var found := ReservationIndex(reservations, reservationId);
      if found.None? {
        return Err(NotFound(ReservationNotFound));
      }
      var j := found.value;
      var reservation := reservations[j];
      if reservation.status == Cancelled {
        return Err(AlreadyCancelled(ReservationCancelled));
      }
      var seatAt := SeatIndex(seats, reservation.seatId);
      if seatAt.None? {
        return Err(NotFound(AssociatedSeatNotFound));
      }
      var i := seatAt.value;
      var seat := seats[i];
      reservations := reservations[j := reservation.(status := Cancelled)];
      seats := seats[i := seat.(status := Available)];
      r := Ok(Receipt(reservationId, reservation.clientId, reservation.seatId, seat.trainId,
                      reservation.ticketType, Cancelled));
      if WellFormed(before) {
        CancelPreservesWellFormed(before, reservationId);
      }
    }
  }
}
