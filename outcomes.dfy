/** Failure-carrying results of the booking operations.  The REST layer maps
    NotFound to HTTP 404 and the other two kinds to HTTP 400; the model keeps
    the kind and the detail text and leaves the status code out. */
module Outcomes {

  datatype Option<T> = None | Some(value: T)

  datatype Error =
    | NotFound(detail: string)
    | InvalidArgument(detail: string)
    | AlreadyCancelled(detail: string)

  datatype Result<T> = Ok(value: T) | Err(error: Error)

  // Detail texts, as the routes report them.
  const NoTrainsFound := "No available trains found."
  const NoSeatsFound := "No available seats found for the specified train."
  const SeatNotFound := "Seat not found."
  const TrainNotFound := "Train not found."
  const InvalidTicketType := "Invalid ticket type. Must be 'Flexible' or 'NonFlexible'."
  const ClientNotFound := "Client not found."
  const SeatUnavailable := "Seat not found or already reserved."
  const NoReservationsFound := "No reservations found for the specified client."
  const ReservationNotFound := "Reservation not found."
  const ReservationCancelled := "Reservation is already cancelled."
  const AssociatedSeatNotFound := "Associated seat not found."
}
