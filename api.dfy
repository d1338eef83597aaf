// The shapes the controllers in backend/controllers/ receive and answer with:
// request values, error kinds with their HTTP status and message, and the
// slot summary a conflict reports.
module Api {

  /**
   * A value in a JSON request body, as far as the controllers inspect it:
   * whether it is present, truthy, a number or a string. Objects and arrays
   * are one case, since they are truthy and neither a number nor a string.
   */
  datatype Json = Undefined | Null | Bool(b: bool) | Num(n: int) | Str(s: string) | Composite

  /** JavaScript falsiness: `!value` holds. */
  predicate Falsy(j: Json)
  {
    j.Undefined? || j.Null? || j == Bool(false) || j == Num(0) || j == Str("")
  }

  /** A startTime parameter: absent or empty, not a valid date, or an instant in milliseconds. */
  datatype TimeInput = Missing | Invalid | At(millis: int)

  /** How a conflict reports each colliding booking. */
  datatype Slot = Slot(id: nat, startTime: int, endTime: int)

  /** Every failure the controllers answer with. */
  datatype ApiError =
    | MissingBookingFields
    | InvalidStartTime
    | VehicleNotFound
    | VehicleUnavailable
    | SlotTaken(conflictingBookings: seq<Slot>)
    | BookingNotFound
    | AlreadyCancelled
    | AlreadyCompleted
    | MissingVehicleFields
    | InvalidCapacityKg
    | InvalidTyres
    | MissingQueryParams
    | InvalidCapacityRequired
    | Internal(detail: string)

  /** The HTTP status of each failure. */
  function StatusCode(e: ApiError): (code: nat)
    ensures code in {400, 404, 409, 500}
    ensures code == 404 <==> e.VehicleNotFound? || e.BookingNotFound?
    ensures code == 409 <==> e.SlotTaken?
    ensures code == 500 <==> e.Internal?
  {
    match e
    case VehicleNotFound => 404
    case BookingNotFound => 404
    case SlotTaken(_) => 409
    case Internal(_) => 500
    case _ => 400
  }

  /** The `message` field of each failure response. */
  function Message(e: ApiError): string
  {
    match e
    case MissingBookingFields =>
      "Missing required fields: vehicleId, fromPincode, toPincode, startTime, and customerId are required"
    case InvalidStartTime => "startTime must be a valid ISO date string"
    case VehicleNotFound => "Vehicle not found"
    case VehicleUnavailable => "Vehicle is not available for booking"
    case SlotTaken(_) => "Vehicle is already booked for an overlapping time slot"
    case BookingNotFound => "Booking not found"
    case AlreadyCancelled => "Booking is already cancelled"
    case AlreadyCompleted => "Cannot cancel a completed booking"
    case MissingVehicleFields => "Missing required fields: name, capacityKg, and tyres are required"
    case InvalidCapacityKg => "capacityKg must be a positive number"
    case InvalidTyres => "tyres must be a number greater than or equal to 2"
    case MissingQueryParams =>
      "Missing required query parameters: capacityRequired, fromPincode, toPincode, and startTime are required"
    case InvalidCapacityRequired => "capacityRequired must be a positive number"
    case Internal(_) => "Internal server error"
  }
}
