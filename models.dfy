// backend/models/Booking.js and backend/models/Vehicle.js: the two record
// shapes, the defaults and trim setters the schemas apply when a document is
// built, and the validators that run when it is saved.
module Models {
  import opened Basics
  import opened JsText

  // ---------------------------------------------------------------- Booking

  /** The booking status enum; a stored status is always one of these three. */
  datatype Status = Active | Completed | Cancelled

  function StatusName(s: Status): string
  {
    match s
    case Active => "active"
    case Completed => "completed"
    case Cancelled => "cancelled"
  }

  /** The enum validator: which status, if any, a string names. */
  function ParseStatus(s: string): (r: Option<Status>)
    ensures r.Some? ==> StatusName(r.value) == s
    ensures r.None? <==> s != "active" && s != "completed" && s != "cancelled"
  {
    if s == "active" then Some(Active)
    else if s == "completed" then Some(Completed)
    else if s == "cancelled" then Some(Cancelled)
    else None
  }

  /** Every status reads back as itself, so distinct statuses have distinct names. */
  lemma StatusNameRoundTrip(s: Status)
    ensures ParseStatus(StatusName(s)) == Some(s)
  {
  }

  /** The schema's default status. */
  const DefaultStatus: Status := Active

  /** A booking document; times are milliseconds since the epoch. */
  datatype Booking = Booking(
    id: nat,
    vehicleId: nat,
    fromPincode: string,
    toPincode: string,
    startTime: int,
    endTime: int,
    customerId: string,
    status: Status,
    estimatedRideDurationHours: int,
    createdAt: nat)

  /** `new Booking({...})`: the trimmed string fields and the default status. */
  function NewBooking(id: nat, vehicleId: nat, fromPincode: string, toPincode: string,
                      startTime: int, endTime: int, customerId: string, hours: int, createdAt: nat): Booking
  {
    Booking(id, vehicleId, Trim(fromPincode), Trim(toPincode), startTime, endTime,
            Trim(customerId), DefaultStatus, hours, createdAt)
  }

  /** A freshly built booking is active and holds the trimmed inputs. */
  lemma NewBookingShape(id: nat, vehicleId: nat, fromPincode: string, toPincode: string,
                        startTime: int, endTime: int, customerId: string, hours: int, createdAt: nat)
    ensures var b := NewBooking(id, vehicleId, fromPincode, toPincode, startTime, endTime, customerId, hours, createdAt);
      && b.status == Active
      && b.id == id && b.vehicleId == vehicleId && b.createdAt == createdAt
      && b.startTime == startTime && b.endTime == endTime && b.estimatedRideDurationHours == hours
      && b.fromPincode == Trim(fromPincode) && b.toPincode == Trim(toPincode) && b.customerId == Trim(customerId)
      && IsTrimmed(b.fromPincode) && IsTrimmed(b.toPincode) && IsTrimmed(b.customerId)
      && (IsTrimmed(fromPincode) ==> b.fromPincode == fromPincode)
      && (IsTrimmed(toPincode) ==> b.toPincode == toPincode)
      && (IsTrimmed(customerId) ==> b.customerId == customerId)
  {
    TrimSpec(fromPincode);
    TrimSpec(toPincode);
    TrimSpec(customerId);
  }

  const FromPincodeRequired: string := "From pincode is required"
  const ToPincodeRequired: string := "To pincode is required"
  const PincodeFormat: string := "Pincode must be exactly 6 digits"
  const CustomerIdRequired: string := "Customer ID is required"

  /**
   * What the booking schema's validators accept (vehicleId, the two times and
   * the duration are always present in this record, so their `required`
   * holds): both pincodes exactly six digits and a non-empty customer id.
   */
  predicate ValidBooking(b: Booking)
  {
    IsSixDigits(b.fromPincode) && IsSixDigits(b.toPincode) && b.customerId != ""
  }

  /** The first validator message the booking fails, in schema field order. */
  function BookingViolation(b: Booking): (r: Option<string>)
    ensures r.None? <==> ValidBooking(b)
  {
    if b.fromPincode == "" then Some(FromPincodeRequired)
    else if !IsSixDigits(b.fromPincode) then Some(PincodeFormat)
    else if b.toPincode == "" then Some(ToPincodeRequired)
    else if !IsSixDigits(b.toPincode) then Some(PincodeFormat)
    else if b.customerId == "" then Some(CustomerIdRequired)
    else None
  }

  /** Changing only the status keeps a booking valid: the status is always in the enum. */
  lemma StatusChangeKeepsValid(b: Booking, s: Status)
    requires ValidBooking(b)
    ensures ValidBooking(b.(status := s)) && BookingViolation(b.(status := s)).None?
  {
  }

  // ---------------------------------------------------------------- Vehicle

  /** A vehicle document. */
  datatype Vehicle = Vehicle(
    id: nat,
    name: string,
    capacityKg: int,
    tyres: int,
    isActive: bool,
    createdAt: nat)

  /** The schema's default for isActive. */
  const DefaultIsActive: bool := true

  /** `new Vehicle({...})`: the trimmed name and the default active flag. */
  function NewVehicle(id: nat, name: string, capacityKg: int, tyres: int, createdAt: nat): Vehicle
  {
    Vehicle(id, Trim(name), capacityKg, tyres, DefaultIsActive, createdAt)
  }

  /** A freshly built vehicle is active, with its name trimmed. */
  lemma NewVehicleShape(id: nat, name: string, capacityKg: int, tyres: int, createdAt: nat)
    ensures var v := NewVehicle(id, name, capacityKg, tyres, createdAt);
      && v.isActive && v.id == id && v.createdAt == createdAt
      && v.name == Trim(name) && IsTrimmed(v.name) && (IsTrimmed(name) ==> v.name == name)
      && v.capacityKg == capacityKg && v.tyres == tyres
  {
    TrimSpec(name);
  }

  const NameRequired: string := "Vehicle name is required"
  const NameTooLong: string := "Vehicle name cannot exceed 100 characters"
  const CapacityTooSmall: string := "Capacity must be at least 1 KG"
  const CapacityTooLarge: string := "Capacity cannot exceed 10,000 KG"
  const TooFewTyres: string := "Vehicle must have at least 2 tyres"
  const TooManyTyres: string := "Vehicle cannot have more than 20 tyres"

  /** What the vehicle schema's validators accept. */
  predicate ValidVehicle(v: Vehicle)
  {
    && v.name != "" && |v.name| <= 100
    && 1 <= v.capacityKg <= 10000
    && 2 <= v.tyres <= 20
  }

  /** The first validator message the vehicle fails, in schema field order. */
  function VehicleViolation(v: Vehicle): (r: Option<string>)
    ensures r.None? <==> ValidVehicle(v)
  {
    if v.name == "" then Some(NameRequired)
    else if |v.name| > 100 then Some(NameTooLong)
    else if v.capacityKg < 1 then Some(CapacityTooSmall)
    else if v.capacityKg > 10000 then Some(CapacityTooLarge)
    else if v.tyres < 2 then Some(TooFewTyres)
    else if v.tyres > 20 then Some(TooManyTyres)
    else None
  }
}
