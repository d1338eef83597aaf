// backend/controllers/vehiclesController.js: the decisions of addVehicle,
// getAvailableVehicles and getVehicles as functions of the stored records and
// the request.
module Fleet {
  import opened Basics
  import opened Collections
  import opened JsText
  import opened RideDuration
  import opened Models
  import opened Api
  import opened BookingEngine

  // -------------------------------------------------------------- addVehicle

  /** The body of POST /api/vehicles. */
  datatype VehicleRequest = VehicleRequest(name: Json, capacityKg: Json, tyres: Json)

  /** The TypeError a truthy name that is not a string raises at `name.trim()`. */
  const TrimNotAFunction: string := "name.trim is not a function"

  /**
   * addVehicle's decision on a store whose next id and creation stamp is
   * `clock`: the controller's three 400 checks, then the `name.trim()` call,
   * then the schema validation on save (both of which surface as 500).
   */
  function PlanVehicle(clock: nat, req: VehicleRequest): Result<Vehicle, ApiError>
  {
    if Falsy(req.name) || Falsy(req.capacityKg) || Falsy(req.tyres) then Failure(MissingVehicleFields)
    else if !req.capacityKg.Num? || req.capacityKg.n <= 0 then Failure(InvalidCapacityKg)
    else if !req.tyres.Num? || req.tyres.n < 2 then Failure(InvalidTyres)
    else if !req.name.Str? then Failure(Internal(TrimNotAFunction))
    else
      var v := NewVehicle(clock, req.name.s, req.capacityKg.n, req.tyres.n, clock);
      match VehicleViolation(v)
      case Some(m) => Failure(Internal(m))
      case None => Success(v)
  }

  /** A request the controller and the schema both accept. */
  predicate AcceptableVehicle(req: VehicleRequest)
  {
    && req.name.Str? && Trim(req.name.s) != "" && |Trim(req.name.s)| <= 100
    && req.capacityKg.Num? && 1 <= req.capacityKg.n <= 10000
    && req.tyres.Num? && 2 <= req.tyres.n <= 20
  }

  /**
   * A vehicle is registered exactly when the request is acceptable, and then
   * it holds the trimmed name, the given capacity and tyres, is active and is
   * stamped with the clock.
   */
  lemma AddVehicleOutcome(clock: nat, req: VehicleRequest)
    ensures var r := PlanVehicle(clock, req);
      && (r.Success? <==> AcceptableVehicle(req))
      && (r.Success? ==>
            && r.value == Vehicle(clock, Trim(req.name.s), req.capacityKg.n, req.tyres.n, true, clock)
            && ValidVehicle(r.value) && IsTrimmed(r.value.name))
  {
    if req.name.Str? && req.capacityKg.Num? && req.tyres.Num?
       && req.name.s != "" && req.capacityKg.n > 0 && req.tyres.n >= 2 {
      AddedVehicle(clock, req.name.s, req.capacityKg.n, req.tyres.n);
      NewVehicleShape(clock, req.name.s, req.capacityKg.n, req.tyres.n, clock);
    } else if req.name.Str? && req.name.s == "" {
      assert Trim(req.name.s) == "";
    }
  }

  /** Past the controller's checks, the schema alone decides, on the built vehicle. */
  lemma AddedVehicle(clock: nat, name: string, capacityKg: int, tyres: int)
    requires name != "" && capacityKg > 0 && tyres >= 2
    ensures var r := PlanVehicle(clock, VehicleRequest(Str(name), Num(capacityKg), Num(tyres)));
      var v := NewVehicle(clock, name, capacityKg, tyres, clock);
      && (r.Success? <==> ValidVehicle(v))
      && (r.Success? ==> r.value == v)
      && (r.Failure? ==> r.error == Internal(VehicleViolation(v).value))
  {
    assert !Falsy(Str(name)) && !Falsy(Num(capacityKg)) && !Falsy(Num(tyres));
  }

  /**
   * The rejections in the controller's order: a falsy field (so a zero
   * capacity or zero tyres) is "missing", then the capacity, then the tyres.
   */
  lemma AddVehicleErrorOrder(clock: nat, req: VehicleRequest)
    ensures var r := PlanVehicle(clock, req);
      && (r == Failure(MissingVehicleFields) <==> Falsy(req.name) || Falsy(req.capacityKg) || Falsy(req.tyres))
      && (req.capacityKg == Num(0) ==> r == Failure(MissingVehicleFields))
      && (req.tyres == Num(0) ==> r == Failure(MissingVehicleFields))
      && (r == Failure(InvalidCapacityKg) <==>
            !Falsy(req.name) && !Falsy(req.capacityKg) && !Falsy(req.tyres)
            && (!req.capacityKg.Num? || req.capacityKg.n < 0))
      && (r == Failure(InvalidTyres) <==>
            !Falsy(req.name) && req.capacityKg.Num? && req.capacityKg.n > 0
            && !Falsy(req.tyres) && (!req.tyres.Num? || req.tyres.n < 2))
  {
  }

  /**
   * The controller's checks are weaker than the schema's: a capacity above
   * 10000 or more than 20 tyres passes them and is refused on save with 500.
   */
  lemma SchemaBoundsAnswer500(clock: nat, name: string, capacityKg: int, tyres: int)
    requires Trim(name) != "" && |Trim(name)| <= 100
    requires capacityKg > 10000 && tyres >= 2
    ensures PlanVehicle(clock, VehicleRequest(Str(name), Num(capacityKg), Num(tyres)))
         == Failure(Internal(CapacityTooLarge))
  {
  }

  // ---------------------------------------------------- getAvailableVehicles

  /** The query string of GET /api/vehicles/available; an empty string stands for an absent parameter. */
  datatype SearchQuery = SearchQuery(
    capacityRequired: string,
    fromPincode: string,
    toPincode: string,
    startTime: TimeInput)

  /** The parsed search: required capacity, estimated hours, and the window [start, end). */
  datatype SearchWindow = SearchWindow(capacity: int, hours: int, start: int, end: int)

  /** getAvailableVehicles' checks and the window they compute, in the controller's order. */
  function CheckSearch(q: SearchQuery): Result<SearchWindow, ApiError>
  {
    if q.capacityRequired == "" || q.fromPincode == "" || q.toPincode == "" || q.startTime.Missing? then
      Failure(MissingQueryParams)
    else
      var capacity := ParseInt(q.capacityRequired);
      if capacity.None? || capacity.value <= 0 then Failure(InvalidCapacityRequired)
      else if q.startTime.Invalid? then Failure(InvalidStartTime)
      else
        var hours := CalculateRideDuration(q.fromPincode, q.toPincode);
        if hours.Failure? then Failure(Internal(hours.error))
        else
          var start := q.startTime.millis;
          Success(SearchWindow(capacity.value, hours.value, start, AddHours(start, hours.value)))
  }

  /** The search's rejections in order, and the window it computes when it accepts. */
  lemma CheckSearchSpec(q: SearchQuery)
    ensures var r := CheckSearch(q);
      && (r == Failure(MissingQueryParams) <==>
            q.capacityRequired == "" || q.fromPincode == "" || q.toPincode == "" || q.startTime.Missing?)
      && (r == Failure(InvalidCapacityRequired) <==>
            && q.capacityRequired != "" && q.fromPincode != "" && q.toPincode != "" && !q.startTime.Missing?
            && (ParseInt(q.capacityRequired).None? || ParseInt(q.capacityRequired).value <= 0))
      && (r == Failure(InvalidStartTime) <==>
            && q.capacityRequired != "" && q.fromPincode != "" && q.toPincode != ""
            && ParseInt(q.capacityRequired).Some? && ParseInt(q.capacityRequired).value > 0
            && q.startTime.Invalid?)
      && (r.Failure? && r.error.Internal? <==>
            && q.capacityRequired != "" && q.fromPincode != "" && q.toPincode != ""
            && ParseInt(q.capacityRequired).Some? && ParseInt(q.capacityRequired).value > 0
            && q.startTime.At? && CalculateRideDuration(q.fromPincode, q.toPincode).Failure?)
      && (r.Success? ==>
            && q.startTime.At?
            && Some(r.value.capacity) == ParseInt(q.capacityRequired) && r.value.capacity >= 1
            && Success(r.value.hours) == CalculateRideDuration(q.fromPincode, q.toPincode)
            && 1 <= r.value.hours <= 23
            && r.value.start == q.startTime.millis
            && r.value.end == AddHours(r.value.start, r.value.hours)
            && r.value.end - r.value.start >= HourMs)
  {
  }

  /** The Vehicle.find filter: active with at least the required capacity. */
  predicate Eligible(v: Vehicle, capacity: int)
  {
    v.capacityKg >= capacity && v.isActive
  }

  function EligibleFor(capacity: int): Vehicle -> bool
  {
    v => Eligible(v, capacity)
  }

  /** Vehicle.find({capacityKg: {$gte: capacity}, isActive: true}), in store order. */
  function EligibleVehicles(vehicles: seq<Vehicle>, capacity: int): seq<Vehicle>
  {
    Filter(vehicles, EligibleFor(capacity))
  }

  /** The loop's test: the conflict query for the vehicle finds nothing. */
  predicate Free(v: Vehicle, bookings: seq<Booking>, start: int, end: int)
  {
    ConflictingBookings(bookings, v.id, start, end) == []
  }

  function FreeIn(bookings: seq<Booking>, start: int, end: int): Vehicle -> bool
  {
    v => Free(v, bookings, start, end)
  }

  /** The vehicles the loop collects, in the order it visits them. */
  function AvailableVehicles(vehicles: seq<Vehicle>, bookings: seq<Booking>, w: SearchWindow): seq<Vehicle>
  {
    Filter(EligibleVehicles(vehicles, w.capacity), FreeIn(bookings, w.start, w.end))
  }

  /** Available: active, large enough, and no active booking of it overlaps the window. */
  predicate IsAvailable(v: Vehicle, bookings: seq<Booking>, w: SearchWindow)
  {
    && v.isActive && v.capacityKg >= w.capacity
    && forall b :: b in bookings && b.vehicleId == v.id && b.status == Active
         ==> !TimeRangesOverlap(b.startTime, b.endTime, w.start, w.end)
  }

  function AvailableIn(bookings: seq<Booking>, w: SearchWindow): Vehicle -> bool
  {
    v => IsAvailable(v, bookings, w)
  }

  lemma FreeIffAvailable(v: Vehicle, bookings: seq<Booking>, w: SearchWindow)
    requires Eligible(v, w.capacity)
    ensures Free(v, bookings, w.start, w.end) <==> IsAvailable(v, bookings, w)
  {
    var c := ConflictingBookings(bookings, v.id, w.start, w.end);
    NonEmptyIffMember(c);
  }

  /**
   * Soundness, completeness and order: the search returns exactly the
   * available vehicles, as the subsequence of the store in store order.
   */
  lemma AvailableVehiclesExactly(vehicles: seq<Vehicle>, bookings: seq<Booking>, w: SearchWindow)
    ensures AvailableVehicles(vehicles, bookings, w) == Filter(vehicles, AvailableIn(bookings, w))
    ensures forall v :: v in AvailableVehicles(vehicles, bookings, w) <==> v in vehicles && IsAvailable(v, bookings, w)
  {
    forall v | Eligible(v, w.capacity)
      ensures Free(v, bookings, w.start, w.end) <==> IsAvailable(v, bookings, w)
    {
      FreeIffAvailable(v, bookings, w);
    }
    FilterFilter(vehicles, EligibleFor(w.capacity), FreeIn(bookings, w.start, w.end), AvailableIn(bookings, w));
    FilterMembers(vehicles, AvailableIn(bookings, w));
  }

  /** Two filters in a row are one filter on their conjunction. */
  lemma {:induction false} FilterFilter(s: seq<Vehicle>, p: Vehicle -> bool, q: Vehicle -> bool, pq: Vehicle -> bool)
    requires forall v :: p(v) ==> (q(v) <==> pq(v))
    requires forall v :: pq(v) ==> p(v)
    ensures Filter(Filter(s, p), q) == Filter(s, pq)
  {
    if s != [] {
      var init, last := s[..|s| - 1], s[|s| - 1];
      FilterFilter(init, p, q, pq);
      FilterAppend(Filter(init, p), if p(last) then [last] else [], q);
      if p(last) {
        assert [last][..0] == [];
      }
    }
  }

  /** The 200 body of a search: the vehicles, the estimate, and the criteria. */
  datatype Availability = Availability(vehicles: seq<Vehicle>, estimatedRideDurationHours: int, searchCriteria: SearchWindow)

  /** getAvailableVehicles' answer. */
  function SearchAvailability(vehicles: seq<Vehicle>, bookings: seq<Booking>, q: SearchQuery): Result<Availability, ApiError>
  {
    match CheckSearch(q)
    case Failure(e) => Failure(e)
    case Success(w) => Success(Availability(AvailableVehicles(vehicles, bookings, w), w.hours, w))
  }

  /** Distinct positions hold distinct ids, as document ids are. */
  predicate UniqueVehicleIds(vehicles: seq<Vehicle>)
  {
    forall i, j :: 0 <= i < j < |vehicles| ==> vehicles[i].id != vehicles[j].id
  }

  lemma FindListedVehicle(vehicles: seq<Vehicle>, v: Vehicle)
    requires UniqueVehicleIds(vehicles) && v in vehicles
    ensures FindVehicle(vehicles, v.id) == Some(v)
  {
    var i :| 0 <= i < |vehicles| && vehicles[i] == v;
    var k := FirstIndex(vehicles, HasVehicleId(v.id));
    assert HasVehicleId(v.id)(vehicles[i]);
    assert k.Some? && k.value <= i;
    assert vehicles[k.value].id == vehicles[i].id;
  }

  /**
   * Search and booking agree: booking a vehicle the search listed, for the
   * same pincodes and start time, is never refused as unknown, unavailable
   * or taken; with valid pincodes and a customer id it succeeds.
   */
  lemma ListedVehicleCanBeBooked(vehicles: seq<Vehicle>, bookings: seq<Booking>, clock: nat,
                                 q: SearchQuery, v: Vehicle, customerId: string)
    requires UniqueVehicleIds(vehicles)
    requires SearchAvailability(vehicles, bookings, q).Success?
    requires v in SearchAvailability(vehicles, bookings, q).value.vehicles
    requires customerId != ""
    ensures var req := BookingRequest(Some(v.id), q.fromPincode, q.toPincode, q.startTime, customerId);
      var r := PlanBooking(vehicles, bookings, clock, req);
      && (r.Success? || r.error.Internal?)
      && (IsSixDigits(Trim(q.fromPincode)) && IsSixDigits(Trim(q.toPincode)) && Trim(customerId) != "" ==> r.Success?)
  {
    var w := CheckSearch(q).value;
    var req := BookingRequest(Some(v.id), q.fromPincode, q.toPincode, q.startTime, customerId);
    AvailableVehiclesExactly(vehicles, bookings, w);
    FindListedVehicle(vehicles, v);
    assert ReachesConflictCheck(vehicles, req);
    assert RequestedEnd(vehicles, req) == w.end;
    CreateConflictIff(vehicles, bookings, clock, req);
  }

  /**
   * And the converse: an eligible vehicle the search left out has an active
   * booking in the window, so booking it for the same trip is refused with 409.
   */
  lemma UnlistedVehicleIsTaken(vehicles: seq<Vehicle>, bookings: seq<Booking>, clock: nat,
                               q: SearchQuery, v: Vehicle, customerId: string)
    requires UniqueVehicleIds(vehicles)
    requires SearchAvailability(vehicles, bookings, q).Success?
    requires v in vehicles && Eligible(v, CheckSearch(q).value.capacity)
    requires v !in SearchAvailability(vehicles, bookings, q).value.vehicles
    requires customerId != ""
    ensures var req := BookingRequest(Some(v.id), q.fromPincode, q.toPincode, q.startTime, customerId);
      var r := PlanBooking(vehicles, bookings, clock, req);
      r.Failure? && r.error.SlotTaken?
  {
    var w := CheckSearch(q).value;
    var req := BookingRequest(Some(v.id), q.fromPincode, q.toPincode, q.startTime, customerId);
    AvailableVehiclesExactly(vehicles, bookings, w);
    FindListedVehicle(vehicles, v);
    assert ReachesConflictCheck(vehicles, req);
    assert RequestedEnd(vehicles, req) == w.end;
    CreateConflictIff(vehicles, bookings, clock, req);
  }

  /**
   * Once a vehicle holds an active booking overlapping the window, a repeat
   * search leaves out that vehicle and lists every other vehicle as before.
   */
  lemma BookingRemovesFromSearch(vehicles: seq<Vehicle>, bookings: seq<Booking>, w: SearchWindow, b: Booking)
    requires b.status == Active && TimeRangesOverlap(b.startTime, b.endTime, w.start, w.end)
    ensures forall u :: u in AvailableVehicles(vehicles, bookings + [b], w)
                    <==> u in AvailableVehicles(vehicles, bookings, w) && u.id != b.vehicleId
  {
    AvailableVehiclesExactly(vehicles, bookings, w);
    AvailableVehiclesExactly(vehicles, bookings + [b], w);
    forall u | u in vehicles
      ensures IsAvailable(u, bookings + [b], w) <==> IsAvailable(u, bookings, w) && u.id != b.vehicleId
    {
      assert b in bookings + [b];
      assert forall c :: c in bookings + [b] <==> c in bookings || c == b;
    }
  }

  // -------------------------------------------------------------- getVehicles

  function IsActiveVehicle(v: Vehicle): bool
  {
    v.isActive
  }

  function VehicleCreatedAt(v: Vehicle): int
  {
    v.createdAt
  }

  /** getVehicles: the active vehicles, newest createdAt first. */
  function ListVehicles(vehicles: seq<Vehicle>): seq<Vehicle>
  {
    SortDesc(Filter(vehicles, IsActiveVehicle), VehicleCreatedAt)
  }

  /** getVehicles returns exactly the active vehicles, each as often as stored, newest first. */
  lemma ListVehiclesSpec(vehicles: seq<Vehicle>)
    ensures var r := ListVehicles(vehicles);
      && (forall v :: v in r <==> v in vehicles && v.isActive)
      && multiset(r) == multiset(Filter(vehicles, IsActiveVehicle))
      && forall i, j :: 0 <= i < j < |r| ==> r[i].createdAt >= r[j].createdAt
  {
    var r := ListVehicles(vehicles);
    FilterMembers(vehicles, IsActiveVehicle);
    SortMembers(Filter(vehicles, IsActiveVehicle), VehicleCreatedAt);
    forall i, j | 0 <= i < j < |r| ensures r[i].createdAt >= r[j].createdAt {
      SortedDescPairs(r, VehicleCreatedAt, i, j);
    }
  }
}
