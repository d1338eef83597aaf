// backend/controllers/bookingsController.js: the decisions of createBooking,
// getBookings, getBookingById and cancelBooking as functions of the stored
// records and the request, and the store invariant they protect: no two
// active bookings of one vehicle overlap.
module BookingEngine {
  import opened Basics
  import opened Collections
  import opened JsText
  import opened RideDuration
  import opened Models
  import opened Api

  // ------------------------------------------------------------ the invariant

  /** For every vehicle, its active bookings are pairwise non-overlapping on [startTime, endTime). */
  predicate NoDoubleBooking(bookings: seq<Booking>)
  {
    forall i, j ::
      0 <= i < |bookings| && 0 <= j < |bookings| && i != j
      && bookings[i].vehicleId == bookings[j].vehicleId
      && bookings[i].status == Active && bookings[j].status == Active
      ==> !TimeRangesOverlap(bookings[i].startTime, bookings[i].endTime, bookings[j].startTime, bookings[j].endTime)
  }

  // ------------------------------------------------------ lookups and queries

  function HasVehicleId(id: nat): Vehicle -> bool
  {
    (v: Vehicle) => v.id == id
  }

  /** Vehicle.findById. */
  function FindVehicle(vehicles: seq<Vehicle>, id: nat): (r: Option<Vehicle>)
    ensures r.Some? ==> r.value in vehicles && r.value.id == id
    ensures r.None? <==> forall v :: v in vehicles ==> v.id != id
  {
    match FirstIndex(vehicles, HasVehicleId(id))
    case None => None
    case Some(i) => Some(vehicles[i])
  }

  /**
   * The conflict query's filter: an active booking of the vehicle with
   * startTime < end and endTime > start, which is the overlap of the two
   * half-open intervals.
   */
  predicate Blocks(b: Booking, vehicleId: nat, start: int, end: int)
  {
    b.vehicleId == vehicleId && b.status == Active && TimeRangesOverlap(b.startTime, b.endTime, start, end)
  }

  function Blocking(vehicleId: nat, start: int, end: int): Booking -> bool
  {
    b => Blocks(b, vehicleId, start, end)
  }

  /** Booking.find for conflicts: the stored bookings that block [start, end) on the vehicle, in store order. */
  function ConflictingBookings(bookings: seq<Booking>, vehicleId: nat, start: int, end: int): (r: seq<Booking>)
    ensures forall b :: b in r <==> b in bookings && Blocks(b, vehicleId, start, end)
  {
    FilterMembers(bookings, Blocking(vehicleId, start, end));
    Filter(bookings, Blocking(vehicleId, start, end))
  }

  function SlotOf(b: Booking): Slot
  {
    Slot(b.id, b.startTime, b.endTime)
  }

  /** The (id, startTime, endTime) summary of each booking, in order. */
  function Slots(bs: seq<Booking>): (r: seq<Slot>)
    ensures |r| == |bs| && forall i :: 0 <= i < |bs| ==> r[i] == SlotOf(bs[i])
  {
    seq(|bs|, i requires 0 <= i < |bs| => SlotOf(bs[i]))
  }

  // ----------------------------------------------------------- createBooking

  /** The body of POST /api/bookings; an empty string stands for an absent or empty field. */
  datatype BookingRequest = BookingRequest(
    vehicleId: Option<nat>,
    fromPincode: string,
    toPincode: string,
    startTime: TimeInput,
    customerId: string)

  /** Some required field is absent or falsy. */
  predicate MissingFields(req: BookingRequest)
  {
    req.vehicleId.None? || req.fromPincode == "" || req.toPincode == ""
    || req.startTime.Missing? || req.customerId == ""
  }

  /**
   * The request passes every check before the conflict query: the fields are
   * present, the start time is valid, the vehicle exists and is active, and
   * the duration can be estimated.
   */
  predicate ReachesConflictCheck(vehicles: seq<Vehicle>, req: BookingRequest)
  {
    && !MissingFields(req)
    && req.startTime.At?
    && FindVehicle(vehicles, req.vehicleId.value).Some?
    && FindVehicle(vehicles, req.vehicleId.value).value.isActive
    && CalculateRideDuration(req.fromPincode, req.toPincode).Success?
  }

  /** The end of the requested window: start plus the estimated hours. */
  function RequestedEnd(vehicles: seq<Vehicle>, req: BookingRequest): int
    requires ReachesConflictCheck(vehicles, req)
  {
    AddHours(req.startTime.millis, CalculateRideDuration(req.fromPincode, req.toPincode).value)
  }

  /**
   * createBooking's decision on a store holding `vehicles` and `bookings`,
   * whose next id and creation stamp is `clock`: the failure the controller
   * answers with, or the booking it inserts. The checks run in the
   * controller's order: missing fields, start time, vehicle lookup, active
   * flag, duration estimate (a thrown error is a 500), the conflict query,
   * and last the schema validation on save (a 500).
   */
  function PlanBooking(vehicles: seq<Vehicle>, bookings: seq<Booking>, clock: nat, req: BookingRequest)
    : Result<Booking, ApiError>
  {
    if MissingFields(req) then Failure(MissingBookingFields)
    else if req.startTime.Invalid? then Failure(InvalidStartTime)
    else
      var vehicle := FindVehicle(vehicles, req.vehicleId.value);
      if vehicle.None? then Failure(VehicleNotFound)
      else if !vehicle.value.isActive then Failure(VehicleUnavailable)
      else
        var hours := CalculateRideDuration(req.fromPincode, req.toPincode);
        if hours.Failure? then Failure(Internal(hours.error))
        else Admit(bookings, clock, req, hours.value)
  }

  /** The last two steps of createBooking: the conflict query, then building and validating the document. */
  function Admit(bookings: seq<Booking>, clock: nat, req: BookingRequest, hours: int): Result<Booking, ApiError>
    requires req.vehicleId.Some? && req.startTime.At?
  {
    var start := req.startTime.millis;
    Decide(ConflictingBookings(bookings, req.vehicleId.value, start, AddHours(start, hours)), clock, req, hours)
  }

  /** What createBooking does with the answer to its conflict query: a 409 listing it, or the insert. */
  function Decide(conflicts: seq<Booking>, clock: nat, req: BookingRequest, hours: int): Result<Booking, ApiError>
    requires req.vehicleId.Some? && req.startTime.At?
  {
    if |conflicts| > 0 then Failure(SlotTaken(Slots(conflicts)))
    else
      var start := req.startTime.millis;
      SaveBooking(NewBooking(clock, req.vehicleId.value, req.fromPincode, req.toPincode,
                             start, AddHours(start, hours), req.customerId, hours, clock))
  }

  /** The schema validation on save: the document, or a 500 carrying the validator's message. */
  function SaveBooking(b: Booking): (r: Result<Booking, ApiError>)
    ensures r.Success? <==> ValidBooking(b)
    ensures r.Success? ==> r.value == b
    ensures r.Failure? ==> r.error.Internal?
  {
    match BookingViolation(b)
    case Some(m) => Failure(Internal(m))
    case None => Success(b)
  }

  /** Once the checks before the conflict query pass, the decision is Admit's. */
  lemma PlanReachesAdmit(vehicles: seq<Vehicle>, bookings: seq<Booking>, clock: nat, req: BookingRequest)
    requires ReachesConflictCheck(vehicles, req)
    ensures PlanBooking(vehicles, bookings, clock, req)
         == Admit(bookings, clock, req, CalculateRideDuration(req.fromPincode, req.toPincode).value)
  {
  }

  /** The early rejections, in the controller's order; none of them looks at the bookings. */
  lemma CreateErrorOrder(vehicles: seq<Vehicle>, bookings: seq<Booking>, clock: nat, req: BookingRequest)
    ensures var r := PlanBooking(vehicles, bookings, clock, req);
      && (r == Failure(MissingBookingFields) <==> MissingFields(req))
      && (!MissingFields(req) && req.startTime.Invalid? ==> r == Failure(InvalidStartTime))
      && (!MissingFields(req) && req.startTime.At? && FindVehicle(vehicles, req.vehicleId.value).None?
          ==> r == Failure(VehicleNotFound))
      && (!MissingFields(req) && req.startTime.At? && FindVehicle(vehicles, req.vehicleId.value).Some?
          && !FindVehicle(vehicles, req.vehicleId.value).value.isActive
          ==> r == Failure(VehicleUnavailable))
      && (r.Success? || r.error.SlotTaken? ==> ReachesConflictCheck(vehicles, req))
  {
  }

  /** What a successful request inserts. */
  lemma CreatedBooking(vehicles: seq<Vehicle>, bookings: seq<Booking>, clock: nat, req: BookingRequest)
    requires PlanBooking(vehicles, bookings, clock, req).Success?
    ensures ReachesConflictCheck(vehicles, req)
    ensures var b := PlanBooking(vehicles, bookings, clock, req).value;
      && b.id == clock && b.createdAt == clock
      && b.vehicleId == req.vehicleId.value
      && b.fromPincode == Trim(req.fromPincode) && b.toPincode == Trim(req.toPincode)
      && b.customerId == Trim(req.customerId)
      && b.status == Active
      && b.estimatedRideDurationHours == CalculateRideDuration(req.fromPincode, req.toPincode).value
      && 1 <= b.estimatedRideDurationHours <= 23
      && b.startTime == req.startTime.millis
      && b.endTime == AddHours(b.startTime, b.estimatedRideDurationHours)
      && ValidBooking(b)
      && forall c :: c in bookings && c.vehicleId == b.vehicleId && c.status == Active
           ==> !TimeRangesOverlap(c.startTime, c.endTime, b.startTime, b.endTime)
  {
    CreateErrorOrder(vehicles, bookings, clock, req);
    PlanReachesAdmit(vehicles, bookings, clock, req);
    AdmittedBooking(bookings, clock, req, CalculateRideDuration(req.fromPincode, req.toPincode).value);
  }

  lemma AdmittedBooking(bookings: seq<Booking>, clock: nat, req: BookingRequest, hours: int)
    requires req.vehicleId.Some? && req.startTime.At?
    requires Admit(bookings, clock, req, hours).Success?
    ensures var b := Admit(bookings, clock, req, hours).value;
      && b == NewBooking(clock, req.vehicleId.value, req.fromPincode, req.toPincode,
                         req.startTime.millis, AddHours(req.startTime.millis, hours), req.customerId, hours, clock)
      && ValidBooking(b)
      && forall c :: c in bookings && c.vehicleId == b.vehicleId && c.status == Active
           ==> !TimeRangesOverlap(c.startTime, c.endTime, b.startTime, b.endTime)
  {
    var b := Admit(bookings, clock, req, hours).value;
    forall c | c in bookings && c.vehicleId == b.vehicleId && c.status == Active
      ensures !TimeRangesOverlap(c.startTime, c.endTime, b.startTime, b.endTime)
    {
      assert c !in ConflictingBookings(bookings, b.vehicleId, b.startTime, b.endTime);
    }
  }

  /**
   * Once the checks before the conflict query pass, the request is refused
   * with 409 exactly when some stored booking blocks the window, and the
   * refusal lists exactly the blocking bookings, in store order.
   */
  lemma CreateConflictIff(vehicles: seq<Vehicle>, bookings: seq<Booking>, clock: nat, req: BookingRequest)
    requires ReachesConflictCheck(vehicles, req)
    ensures var r := PlanBooking(vehicles, bookings, clock, req);
      var start, end := req.startTime.millis, RequestedEnd(vehicles, req);
      && ((r.Failure? && r.error.SlotTaken?) <==> exists b :: b in bookings && Blocks(b, req.vehicleId.value, start, end))
      && (r.Failure? && r.error.SlotTaken?
          ==> r.error.conflictingBookings == Slots(ConflictingBookings(bookings, req.vehicleId.value, start, end)))
  {
    PlanReachesAdmit(vehicles, bookings, clock, req);
    AdmitConflictIff(bookings, clock, req, CalculateRideDuration(req.fromPincode, req.toPincode).value);
  }

  lemma AdmitConflictIff(bookings: seq<Booking>, clock: nat, req: BookingRequest, hours: int)
    requires req.vehicleId.Some? && req.startTime.At?
    ensures var r := Admit(bookings, clock, req, hours);
      var start := req.startTime.millis;
      var end := AddHours(start, hours);
      && ((r.Failure? && r.error.SlotTaken?) <==> exists b :: b in bookings && Blocks(b, req.vehicleId.value, start, end))
      && (r.Failure? && r.error.SlotTaken?
          ==> r.error.conflictingBookings == Slots(ConflictingBookings(bookings, req.vehicleId.value, start, end)))
  {
    var start := req.startTime.millis;
    var conflicts := ConflictingBookings(bookings, req.vehicleId.value, start, AddHours(start, hours));
    NonEmptyIffMember(conflicts);
  }

  lemma NonEmptyIffMember(s: seq<Booking>)
    ensures |s| > 0 <==> exists b :: b in s
  {
    if |s| > 0 {
      assert s[0] in s;
    }
  }

  /** Bookings of other vehicles, and bookings that are not active, never change the decision. */
  lemma NonBlockingBookingsIrrelevant(vehicles: seq<Vehicle>, before: seq<Booking>, b: Booking,
                                      after: seq<Booking>, clock: nat, req: BookingRequest)
    requires req.vehicleId.None? || b.vehicleId != req.vehicleId.value || b.status != Active
    ensures PlanBooking(vehicles, before + [b] + after, clock, req) == PlanBooking(vehicles, before + after, clock, req)
  {
    if ReachesConflictCheck(vehicles, req) {
      var vid, start, end := req.vehicleId.value, req.startTime.millis, RequestedEnd(vehicles, req);
      FilterSkips(before, b, after, Blocking(vid, start, end));
      assert ConflictingBookings(before + [b] + after, vid, start, end)
          == ConflictingBookings(before + after, vid, start, end);
      PlanAfterConflictCheck(vehicles, before + [b] + after, before + after, clock, req);
    } else {
      PlanBeforeConflictCheck(vehicles, before + [b] + after, before + after, clock, req);
    }
  }

  /** After the checks before it, the decision looks at the bookings only through the conflict query. */
  lemma PlanAfterConflictCheck(vehicles: seq<Vehicle>, bookings: seq<Booking>, others: seq<Booking>,
                               clock: nat, req: BookingRequest)
    requires ReachesConflictCheck(vehicles, req)
    requires var vid, start, end := req.vehicleId.value, req.startTime.millis, RequestedEnd(vehicles, req);
      ConflictingBookings(bookings, vid, start, end) == ConflictingBookings(others, vid, start, end)
    ensures PlanBooking(vehicles, bookings, clock, req) == PlanBooking(vehicles, others, clock, req)
  {
    PlanReachesAdmit(vehicles, bookings, clock, req);
    PlanReachesAdmit(vehicles, others, clock, req);
  }

  /** Until the conflict query, the decision does not look at the bookings. */
  lemma PlanBeforeConflictCheck(vehicles: seq<Vehicle>, bookings: seq<Booking>, others: seq<Booking>,
                                clock: nat, req: BookingRequest)
    requires !ReachesConflictCheck(vehicles, req)
    ensures PlanBooking(vehicles, bookings, clock, req) == PlanBooking(vehicles, others, clock, req)
  {
  }

  lemma FilterSkips(before: seq<Booking>, b: Booking, after: seq<Booking>, p: Booking -> bool)
    requires !p(b)
    ensures Filter(before + [b] + after, p) == Filter(before + after, p)
  {
    assert Filter([b], p) == [] by {
      assert [b][..0] == [];
    }
    calc {
      Filter(before + [b] + after, p);
    == { FilterAppend(before + [b], after, p); }
      Filter(before + [b], p) + Filter(after, p);
    == { FilterAppend(before, [b], p); }
      Filter(before, p) + [] + Filter(after, p);
    == { assert Filter(before, p) + [] == Filter(before, p); }
      Filter(before, p) + Filter(after, p);
    == { FilterAppend(before, after, p); }
      Filter(before + after, p);
    }
  }

  /**
   * A second request for a stored active booking's vehicle whose window
   * overlaps that booking is refused with 409, and the refusal lists it.
   */
  lemma OverlappingRequestRefused(vehicles: seq<Vehicle>, bookings: seq<Booking>, clock: nat,
                                  first: Booking, req: BookingRequest)
    requires first in bookings && first.status == Active
    requires ReachesConflictCheck(vehicles, req) && first.vehicleId == req.vehicleId.value
    requires TimeRangesOverlap(first.startTime, first.endTime, req.startTime.millis, RequestedEnd(vehicles, req))
    ensures var r := PlanBooking(vehicles, bookings, clock, req);
      r.Failure? && r.error.SlotTaken? && SlotOf(first) in r.error.conflictingBookings
  {
    CreateConflictIff(vehicles, bookings, clock, req);
    var conflicts := ConflictingBookings(bookings, req.vehicleId.value, req.startTime.millis, RequestedEnd(vehicles, req));
    assert first in conflicts;
    var i :| 0 <= i < |conflicts| && conflicts[i] == first;
    assert Slots(conflicts)[i] == SlotOf(first);
  }

  /**
   * A request that starts when every active booking of its vehicle has ended
   * is not refused as taken: back-to-back bookings are allowed, and with
   * six-digit pincodes and a customer id the booking is created.
   */
  lemma BackToBackNotBlocked(vehicles: seq<Vehicle>, bookings: seq<Booking>, clock: nat, req: BookingRequest)
    requires ReachesConflictCheck(vehicles, req)
    requires forall c :: c in bookings && c.vehicleId == req.vehicleId.value && c.status == Active
               ==> c.endTime <= req.startTime.millis
    ensures var r := PlanBooking(vehicles, bookings, clock, req);
      && !(r.Failure? && r.error.SlotTaken?)
      && (r.Success? || r.error.Internal?)
      && (IsSixDigits(Trim(req.fromPincode)) && IsSixDigits(Trim(req.toPincode)) && Trim(req.customerId) != ""
          ==> r.Success?)
  {
    CreateConflictIff(vehicles, bookings, clock, req);
    PlanReachesAdmit(vehicles, bookings, clock, req);
    NoConflictSaves(bookings, clock, req, CalculateRideDuration(req.fromPincode, req.toPincode).value);
  }

  /** With an empty conflict query, the answer is the save of the built document. */
  lemma NoConflictSaves(bookings: seq<Booking>, clock: nat, req: BookingRequest, hours: int)
    requires req.vehicleId.Some? && req.startTime.At?
    requires var start := req.startTime.millis;
      ConflictingBookings(bookings, req.vehicleId.value, start, AddHours(start, hours)) == []
    ensures var r := Admit(bookings, clock, req, hours);
      && (r.Success? || r.error.Internal?)
      && (IsSixDigits(Trim(req.fromPincode)) && IsSixDigits(Trim(req.toPincode)) && Trim(req.customerId) != ""
          ==> r.Success?)
  {
    var start := req.startTime.millis;
    NewBookingShape(clock, req.vehicleId.value, req.fromPincode, req.toPincode,
                    start, AddHours(start, hours), req.customerId, hours, clock);
  }

  /** Inserting what createBooking inserts preserves the invariant. */
  lemma CreatePreservesNoDoubleBooking(vehicles: seq<Vehicle>, bookings: seq<Booking>, clock: nat, req: BookingRequest)
    requires NoDoubleBooking(bookings)
    requires PlanBooking(vehicles, bookings, clock, req).Success?
    ensures NoDoubleBooking(bookings + [PlanBooking(vehicles, bookings, clock, req).value])
  {
    CreatedBooking(vehicles, bookings, clock, req);
    AppendClearBooking(bookings, PlanBooking(vehicles, bookings, clock, req).value);
  }

  lemma AppendClearBooking(bookings: seq<Booking>, b: Booking)
    requires NoDoubleBooking(bookings)
    requires forall c :: c in bookings && c.vehicleId == b.vehicleId && c.status == Active
               ==> !TimeRangesOverlap(c.startTime, c.endTime, b.startTime, b.endTime)
    ensures NoDoubleBooking(bookings + [b])
  {
    var s := bookings + [b];
    forall i, j | 0 <= i < |s| && 0 <= j < |s| && i != j
      && s[i].vehicleId == s[j].vehicleId && s[i].status == Active && s[j].status == Active
      ensures !TimeRangesOverlap(s[i].startTime, s[i].endTime, s[j].startTime, s[j].endTime)
    {
      if j == |bookings| {
        assert s[i] in bookings;
      } else if i == |bookings| {
        assert s[j] in bookings;
        OverlapSymmetric(s[i].startTime, s[i].endTime, s[j].startTime, s[j].endTime);
      } else {
        assert s[i] == bookings[i] && s[j] == bookings[j];
      }
    }
  }

  // ------------------------------------------------------------- getBookings

  /** The query string of GET /api/bookings; an empty string stands for an absent filter. */
  datatype BookingQuery = BookingQuery(customerId: string, status: string)

  /**
   * The find filter: a present customerId is cast through the path's trim
   * setter before it is compared, as Mongoose casts query values.
   */
  predicate MatchesQuery(b: Booking, q: BookingQuery)
  {
    (q.customerId == "" || b.customerId == Trim(q.customerId))
    && (q.status == "" || StatusName(b.status) == q.status)
  }

  function Matching(q: BookingQuery): Booking -> bool
  {
    b => MatchesQuery(b, q)
  }

  function BookingCreatedAt(b: Booking): int
  {
    b.createdAt
  }

  /** getBookings: the bookings matching the filters, newest createdAt first. */
  function ListBookings(bookings: seq<Booking>, q: BookingQuery): seq<Booking>
  {
    SortDesc(Filter(bookings, Matching(q)), BookingCreatedAt)
  }

  /**
   * getBookings returns exactly the matching bookings, each as often as it
   * is stored, ordered newest first.
   */
  lemma ListBookingsSpec(bookings: seq<Booking>, q: BookingQuery)
    ensures var r := ListBookings(bookings, q);
      && (forall b :: b in r <==> b in bookings && MatchesQuery(b, q))
      && multiset(r) == multiset(Filter(bookings, Matching(q)))
      && forall i, j :: 0 <= i < j < |r| ==> r[i].createdAt >= r[j].createdAt
  {
    var r := ListBookings(bookings, q);
    FilterMembers(bookings, Matching(q));
    SortMembers(Filter(bookings, Matching(q)), BookingCreatedAt);
    forall i, j | 0 <= i < j < |r| ensures r[i].createdAt >= r[j].createdAt {
      SortedDescPairs(r, BookingCreatedAt, i, j);
    }
  }

  /** Padding around the customer filter does not change the listing. */
  lemma ListBookingsTrimsCustomer(bookings: seq<Booking>, customerId: string, status: string)
    requires Trim(customerId) != ""
    ensures ListBookings(bookings, BookingQuery(customerId, status))
         == ListBookings(bookings, BookingQuery(Trim(customerId), status))
  {
    TrimSpec(customerId);
    assert customerId != "";
    var q, t := BookingQuery(customerId, status), BookingQuery(Trim(customerId), status);
    forall b: Booking ensures Matching(q)(b) == Matching(t)(b) {
      assert MatchesQuery(b, q) == MatchesQuery(b, t);
    }
    FilterSamePredicate(bookings, Matching(BookingQuery(customerId, status)),
                        Matching(BookingQuery(Trim(customerId), status)));
  }

  /** With no filter, every stored booking is listed. */
  lemma ListBookingsUnfiltered(bookings: seq<Booking>)
    ensures multiset(ListBookings(bookings, BookingQuery("", ""))) == multiset(bookings)
  {
    FilterAll(bookings, Matching(BookingQuery("", "")));
  }

  /** A status filter that names no status matches nothing. */
  lemma ListBookingsUnknownStatus(bookings: seq<Booking>, q: BookingQuery)
    requires q.status != "" && ParseStatus(q.status).None?
    ensures ListBookings(bookings, q) == []
  {
    ListBookingsSpec(bookings, q);
    var r := ListBookings(bookings, q);
    assert forall st: Status :: StatusName(st) != q.status;
    NonEmptyIffMember(r);
  }

  // ---------------------------------------------------------- getBookingById

  function HasBookingId(id: nat): Booking -> bool
  {
    (b: Booking) => b.id == id
  }

  /** Booking.findById: the position of the booking with that id. */
  function FindBookingIndex(bookings: seq<Booking>, id: nat): (r: Option<nat>)
    ensures r.Some? ==> r.value < |bookings| && bookings[r.value].id == id
    ensures r.None? <==> forall b :: b in bookings ==> b.id != id
  {
    FirstIndex(bookings, HasBookingId(id))
  }

  /** getBookingById: the booking with that id, or 404. */
  function GetBookingById(bookings: seq<Booking>, id: nat): (r: Result<Booking, ApiError>)
    ensures r.Success? ==> r.value in bookings && r.value.id == id
    ensures r.Failure? <==> forall b :: b in bookings ==> b.id != id
    ensures r.Failure? ==> r.error == BookingNotFound
  {
    match FindBookingIndex(bookings, id)
    case None => Failure(BookingNotFound)
    case Some(i) => Success(bookings[i])
  }

  // ----------------------------------------------------------- cancelBooking

  /**
   * cancelBooking's answer: 404 for an unknown id, 400 for a booking that is
   * already cancelled or completed (two different messages), and for an active
   * booking the same booking with status cancelled.
   */
  function CancelReply(bookings: seq<Booking>, id: nat): Result<Booking, ApiError>
  {
    match FindBookingIndex(bookings, id)
    case None => Failure(BookingNotFound)
    case Some(i) =>
      var b := bookings[i];
      if b.status == Cancelled then Failure(AlreadyCancelled)
      else if b.status == Completed then Failure(AlreadyCompleted)
      else Success(b.(status := Cancelled))
  }

  /** The store after cancelBooking: the found booking's status is overwritten in place when it was active. */
  function ApplyCancel(bookings: seq<Booking>, id: nat): (r: seq<Booking>)
    ensures |r| == |bookings|
  {
    var reply := CancelReply(bookings, id);
    if reply.Success? then bookings[FindBookingIndex(bookings, id).value := reply.value] else bookings
  }

  /** Distinct positions hold distinct ids, as document ids are. */
  predicate UniqueIds(bookings: seq<Booking>)
  {
    forall i, j :: 0 <= i < j < |bookings| ==> bookings[i].id != bookings[j].id
  }

  /**
   * The cancellation state machine on the booking with that id: active
   * becomes cancelled, cancelled and completed are terminal, and an unknown
   * id is 404.
   */
  lemma CancelTransitions(bookings: seq<Booking>, id: nat)
    requires UniqueIds(bookings)
    ensures var r := CancelReply(bookings, id);
      && (r == Failure(BookingNotFound) <==> forall b :: b in bookings ==> b.id != id)
      && forall i :: 0 <= i < |bookings| && bookings[i].id == id ==>
           match bookings[i].status
           case Active => r == Success(bookings[i].(status := Cancelled))
           case Cancelled => r == Failure(AlreadyCancelled)
           case Completed => r == Failure(AlreadyCompleted)
  {
    var k := FindBookingIndex(bookings, id);
    forall i | 0 <= i < |bookings| && bookings[i].id == id
      ensures k == Some(i)
    {
      assert bookings[i] in bookings;
    }
  }

  /** Cancelling changes one booking, the one with that id, and only its status. */
  lemma ApplyCancelFrame(bookings: seq<Booking>, id: nat)
    ensures var r := ApplyCancel(bookings, id);
      forall i :: 0 <= i < |bookings| ==>
        r[i] == bookings[i] || (bookings[i].id == id && bookings[i].status == Active && r[i] == bookings[i].(status := Cancelled))
  {
  }

  /** Cancellation is not idempotent: cancelling the same booking again is refused. */
  lemma CancelTwiceRefused(bookings: seq<Booking>, id: nat)
    requires CancelReply(bookings, id).Success?
    ensures CancelReply(ApplyCancel(bookings, id), id) == Failure(AlreadyCancelled)
  {
    var k := FindBookingIndex(bookings, id).value;
    var after := ApplyCancel(bookings, id);
    var k2 := FindBookingIndex(after, id);
    assert after[k].id == id;
    assert after[k] in after;
  }

  /** Cancelling can only remove a booking from the active ones, so it preserves the invariant. */
  lemma CancelPreservesNoDoubleBooking(bookings: seq<Booking>, id: nat)
    requires NoDoubleBooking(bookings)
    ensures NoDoubleBooking(ApplyCancel(bookings, id))
  {
    var s := ApplyCancel(bookings, id);
    forall i, j | 0 <= i < |s| && 0 <= j < |s| && i != j
      && s[i].vehicleId == s[j].vehicleId && s[i].status == Active && s[j].status == Active
      ensures !TimeRangesOverlap(s[i].startTime, s[i].endTime, s[j].startTime, s[j].endTime)
    {
      assert s[i] == bookings[i] && s[j] == bookings[j];
    }
  }
}
