// The vehicle and booking collections the controllers read and write, as one
// object: each controller action that changes the store is a method that
// applies the decision function of its controller, and the search is a
// read-only method with the controller's loop.
module FleetStore {
  import opened Basics
  import opened Collections
  import opened RideDuration
  import opened Models
  import opened Api
  import opened BookingEngine
  import opened Fleet

  /** A booking as createBooking stores it: schema-valid, with its window derived from the estimate. */
  predicate WellFormedBooking(b: Booking)
  {
    && ValidBooking(b)
    && 1 <= b.estimatedRideDurationHours <= 23
    && b.endTime == AddHours(b.startTime, b.estimatedRideDurationHours)
  }

  lemma FindVehicleAppend(vehicles: seq<Vehicle>, v: Vehicle, id: nat)
    requires FindVehicle(vehicles, id).Some?
    ensures FindVehicle(vehicles + [v], id).Some?
  {
    var w := FindVehicle(vehicles, id).value;
    assert w in vehicles + [v];
  }

  /** Every stored vehicle passed validation, and vehicle ids are distinct and older than the clock. */
  predicate VehiclesInvariant(vehicles: seq<Vehicle>, clock: nat)
  {
    && (forall i :: 0 <= i < |vehicles| ==>
          ValidVehicle(vehicles[i]) && vehicles[i].id < clock && vehicles[i].createdAt < clock)
    && UniqueVehicleIds(vehicles)
  }

  /**
   * Every stored booking is well formed and names a stored vehicle, booking
   * ids are distinct and older than the clock, and no two active bookings of
   * one vehicle overlap.
   */
  predicate BookingsInvariant(vehicles: seq<Vehicle>, bookings: seq<Booking>, clock: nat)
  {
    && (forall i :: 0 <= i < |bookings| ==>
          && WellFormedBooking(bookings[i]) && bookings[i].id < clock && bookings[i].createdAt < clock
          && FindVehicle(vehicles, bookings[i].vehicleId).Some?)
    && UniqueIds(bookings)
    && NoDoubleBooking(bookings)
  }

  /** The store invariant. */
  predicate StoreInvariant(vehicles: seq<Vehicle>, bookings: seq<Booking>, clock: nat)
  {
    VehiclesInvariant(vehicles, clock) && BookingsInvariant(vehicles, bookings, clock)
  }

  lemma AppendVehicle(vehicles: seq<Vehicle>, clock: nat, v: Vehicle)
    requires VehiclesInvariant(vehicles, clock)
    requires ValidVehicle(v) && v.id == clock && v.createdAt == clock
    ensures VehiclesInvariant(vehicles + [v], clock + 1)
  {
    var vs := vehicles + [v];
    forall i, j | 0 <= i < j < |vs|
      ensures vs[i].id != vs[j].id
    {
      assert vs[i] == vehicles[i];
    }
  }

  lemma VehiclesLaterClock(vehicles: seq<Vehicle>, clock: nat)
    requires VehiclesInvariant(vehicles, clock)
    ensures VehiclesInvariant(vehicles, clock + 1)
  {
  }

  lemma BookingsMoreVehicles(vehicles: seq<Vehicle>, bookings: seq<Booking>, clock: nat, v: Vehicle)
    requires BookingsInvariant(vehicles, bookings, clock)
    ensures BookingsInvariant(vehicles + [v], bookings, clock + 1)
  {
    forall i | 0 <= i < |bookings|
      ensures FindVehicle(vehicles + [v], bookings[i].vehicleId).Some?
    {
      FindVehicleAppend(vehicles, v, bookings[i].vehicleId);
    }
  }

  lemma AppendBooking(vehicles: seq<Vehicle>, bookings: seq<Booking>, clock: nat, b: Booking)
    requires BookingsInvariant(vehicles, bookings, clock)
    requires WellFormedBooking(b) && b.id == clock && b.createdAt == clock
    requires FindVehicle(vehicles, b.vehicleId).Some?
    requires NoDoubleBooking(bookings + [b])
    ensures BookingsInvariant(vehicles, bookings + [b], clock + 1)
  {
    var s := bookings + [b];
    forall i | 0 <= i < |s|
      ensures && WellFormedBooking(s[i]) && s[i].id < clock + 1 && s[i].createdAt < clock + 1
              && FindVehicle(vehicles, s[i].vehicleId).Some?
    {
      if i < |bookings| {
        assert s[i] == bookings[i];
      }
    }
    forall i, j | 0 <= i < j < |s|
      ensures s[i].id != s[j].id
    {
      assert s[i] == bookings[i];
    }
  }

  /** addVehicle's insert keeps the invariant. */
  lemma AddVehicleKeepsInvariant(vehicles: seq<Vehicle>, bookings: seq<Booking>, clock: nat, req: VehicleRequest)
    requires StoreInvariant(vehicles, bookings, clock)
    requires PlanVehicle(clock, req).Success?
    ensures StoreInvariant(vehicles + [PlanVehicle(clock, req).value], bookings, clock + 1)
  {
    var v := PlanVehicle(clock, req).value;
    AddVehicleOutcome(clock, req);
    AppendVehicle(vehicles, clock, v);
    BookingsMoreVehicles(vehicles, bookings, clock, v);
  }

  /** createBooking's insert keeps the invariant, and in particular the absence of double bookings. */
  lemma CreateBookingKeepsInvariant(vehicles: seq<Vehicle>, bookings: seq<Booking>, clock: nat, req: BookingRequest)
    requires StoreInvariant(vehicles, bookings, clock)
    requires PlanBooking(vehicles, bookings, clock, req).Success?
    ensures StoreInvariant(vehicles, bookings + [PlanBooking(vehicles, bookings, clock, req).value], clock + 1)
  {
    var b := PlanBooking(vehicles, bookings, clock, req).value;
    CreatedBooking(vehicles, bookings, clock, req);
    CreatePreservesNoDoubleBooking(vehicles, bookings, clock, req);
    AppendBooking(vehicles, bookings, clock, b);
    VehiclesLaterClock(vehicles, clock);
  }

  /** cancelBooking's status write keeps the invariant. */
  lemma CancelKeepsInvariant(vehicles: seq<Vehicle>, bookings: seq<Booking>, clock: nat, id: nat)
    requires StoreInvariant(vehicles, bookings, clock)
    ensures StoreInvariant(vehicles, ApplyCancel(bookings, id), clock)
  {
    CancelPreservesNoDoubleBooking(bookings, id);
    CancelKeepsBookings(vehicles, bookings, clock, id);
  }

  lemma CancelKeepsBookings(vehicles: seq<Vehicle>, bookings: seq<Booking>, clock: nat, id: nat)
    requires BookingsInvariant(vehicles, bookings, clock)
    requires NoDoubleBooking(ApplyCancel(bookings, id))
    ensures BookingsInvariant(vehicles, ApplyCancel(bookings, id), clock)
  {
    ApplyCancelFrame(bookings, id);
    var s := ApplyCancel(bookings, id);
    forall i | 0 <= i < |s|
      ensures && WellFormedBooking(s[i]) && s[i].id == bookings[i].id && s[i].createdAt == bookings[i].createdAt
              && s[i].vehicleId == bookings[i].vehicleId
    {
      if s[i] != bookings[i] {
        StatusChangeKeepsValid(bookings[i], Cancelled);
      }
    }
  }

  class Store {
    var vehicles: seq<Vehicle>
    var bookings: seq<Booking>
    /** The next document id and creation stamp; it advances on every insert. */
    var clock: nat

    /**
     * Everything in the store passed validation when it was inserted, ids
     * are distinct and older than the clock, every booking names a stored
     * vehicle, and no two active bookings of one vehicle overlap.
     */
    ghost predicate Valid()
      reads this
    {
      StoreInvariant(vehicles, bookings, clock)
    }

    /** An empty store. */
    constructor()
      ensures Valid()
      ensures vehicles == [] && bookings == [] && clock == 0
    {
      vehicles := [];
      bookings := [];
      clock := 0;
    }

    /** POST /api/vehicles: insert the vehicle addVehicle accepts, or change nothing. */
    method AddVehicle(req: VehicleRequest) returns (r: Result<Vehicle, ApiError>)
      requires Valid()
      modifies this
      ensures Valid()
      ensures r == PlanVehicle(old(clock), req)
      ensures r.Success? ==> vehicles == old(vehicles) + [r.value] && clock == old(clock) + 1
      ensures r.Failure? ==> vehicles == old(vehicles) && clock == old(clock)
      ensures bookings == old(bookings)
    {
      r := PlanVehicle(clock, req);
      if r.Success? {
        AddVehicleKeepsInvariant(vehicles, bookings, clock, req);
        vehicles := vehicles + [r.value];
        clock := clock + 1;
      }
    }

    /**
     * POST /api/bookings: insert the booking createBooking accepts, or change
     * nothing; the store keeps its active bookings non-overlapping.
     */
    method CreateBooking(req: BookingRequest) returns (r: Result<Booking, ApiError>)
      requires Valid()
      modifies this
      ensures Valid()
      ensures r == PlanBooking(old(vehicles), old(bookings), old(clock), req)
      ensures r.Success? ==> bookings == old(bookings) + [r.value] && clock == old(clock) + 1
      ensures r.Failure? ==> bookings == old(bookings) && clock == old(clock)
      ensures vehicles == old(vehicles)
    {
      r := PlanBooking(vehicles, bookings, clock, req);
      if r.Success? {
        CreateBookingKeepsInvariant(vehicles, bookings, clock, req);
        bookings := bookings + [r.value];
        clock := clock + 1;
      }
    }

    /**
     * DELETE /api/bookings/:id: overwrite the status of the booking
     * with that id when it is active, or change nothing.
     */
    method CancelBooking(id: nat) returns (r: Result<Booking, ApiError>)
      requires Valid()
      modifies this
      ensures Valid()
      ensures r == CancelReply(old(bookings), id)
      ensures bookings == ApplyCancel(old(bookings), id)
      ensures vehicles == old(vehicles) && clock == old(clock)
    {
      CancelKeepsInvariant(vehicles, bookings, clock, id);
      r := CancelReply(bookings, id);
      if r.Success? {
        var i := FindBookingIndex(bookings, id).value;
        bookings := bookings[i := r.value];
      }
    }

    /**
     * GET /api/vehicles/available: the checks, then one conflict query per
     * eligible vehicle, collecting the free ones in order. The store is not
     * changed.
     */
    method GetAvailableVehicles(q: SearchQuery) returns (r: Result<Availability, ApiError>)
      ensures r == SearchAvailability(vehicles, bookings, q)
      ensures r.Success? ==>
        && Success(r.value.estimatedRideDurationHours) == CalculateRideDuration(q.fromPincode, q.toPincode)
        && forall v :: v in r.value.vehicles <==> v in vehicles && IsAvailable(v, bookings, r.value.searchCriteria)
    {
      var check := CheckSearch(q);
      if check.Failure? {
        return Failure(check.error);
      }
      var w := check.value;
      CheckSearchSpec(q);
      var available := CollectFree(EligibleVehicles(vehicles, w.capacity), w);
      AvailableVehiclesExactly(vehicles, bookings, w);
      r := Success(Availability(available, w.hours, w));
    }

    /** The controller's loop: keep, in order, each candidate whose conflict query comes back empty. */
    method CollectFree(candidates: seq<Vehicle>, w: SearchWindow) returns (available: seq<Vehicle>)
      ensures available == Filter(candidates, FreeIn(bookings, w.start, w.end))
    {
      available := [];
      for i := 0 to |candidates|
        invariant available == Filter(candidates[..i], FreeIn(bookings, w.start, w.end))
      {
        assert candidates[..i + 1][..i] == candidates[..i];
        var conflicts := ConflictingBookings(bookings, candidates[i].id, w.start, w.end);
        if |conflicts| == 0 {
          available := available + [candidates[i]];
        }
      }
      assert candidates[..|candidates|] == candidates;
    }
  }
}
