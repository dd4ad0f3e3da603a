/**
 * One parking spot (SpotInfo.java): a three-state record whose fields are
 * overwritten in place by ReserveFor, OccupyBy and SetFree.
 */
module Spots {
  import opened Wrappers
  import Topology

  /** The enum SpotInfo.State; Java's toString gives the declared lower-case names. */
  datatype State = Free | Reserved | Occupied

  function StateName(s: State): string
  {
    match s
    case Free => "free"
    case Reserved => "reserved"
    case Occupied => "occupied"
  }

  /** A registered user (UserProfile.java); Java allows the plate to be null. */
  datatype UserProfile = UserProfile(plate: Option<string>, userId: string, role: string, phoneNumber: string)

  /**
   * The user database behind UserRegistry.findByPlate, with the profile that
   * UserRegistry.DummyUser hands out for unknown vehicles.
   */
  datatype UserRegistry = UserRegistry(byPlate: map<string, UserProfile>, dummy: UserProfile)

  /** findByPlate: the profile filed under the plate; nothing for a null or unregistered plate. */
  function FindByPlate(reg: UserRegistry, plate: Option<string>): (u: Option<UserProfile>)
    ensures u.Some? <==> plate.Some? && plate.value in reg.byPlate
    ensures Consistent(reg) && u.Some? ==> u.value.plate == plate
  {
    if plate.Some? && plate.value in reg.byPlate then Some(reg.byPlate[plate.value]) else None
  }

  /** A registry in which every profile is filed under its own plate and the dummy's plate is null or "UNKNOWN". */
  ghost predicate Consistent(reg: UserRegistry)
  {
    && (forall p :: p in reg.byPlate ==> reg.byPlate[p].plate == Some(p))
    && (reg.dummy.plate == None || reg.dummy.plate == Some(Unknown))
  }

  /** The plate reported for a spot without a (known) vehicle. */
  const Unknown: string := "UNKNOWN"

  /** The external calendar lookup: estimated end of the user's day, in seconds, if any. */
  type Calendar = UserProfile -> Option<int>

  /** The mutable fields of a SpotInfo, as a value. Instants are seconds. */
  datatype SpotRecord = SpotRecord(state: State, user: Option<UserProfile>, arrival: Option<int>, departure: Option<int>)
  {
    /** The class invariant: arrival set iff occupied, departure only when occupied, no user when free. */
    predicate Valid()
    {
      && (arrival.Some? <==> state == Occupied)
      && (departure.Some? ==> state == Occupied)
      && (state == Free ==> user.None?)
    }

    /** getAssignedPlate: the user's plate, or "UNKNOWN" when there is no user or no plate. */
    function AssignedPlate(): (p: string)
      ensures user.Some? && user.value.plate.Some? ==> p == user.value.plate.value
      ensures p == Unknown <==> user.None? || user.value.plate.None? || user.value.plate == Some(Unknown)
    {
      if user.None? || user.value.plate.None? then Unknown else user.value.plate.value
    }
  }

  /** The record of a free spot: no user, no arrival, no departure estimate. */
  const FreeRecord: SpotRecord := SpotRecord(Free, None, None, None)

  /** reserveFor(plate): reserved for the profile registered under `plate`, times cleared. */
  function ReserveRecord(reg: UserRegistry, plate: Option<string>): (r: SpotRecord)
    ensures r.Valid() && r.state == Reserved
    ensures r.arrival.None? && r.departure.None?
  {
    SpotRecord(Reserved, FindByPlate(reg, plate), None, None)
  }

  /** The profile occupyBy attaches: the dummy for "UNKNOWN", otherwise the registry's entry. */
  function OccupantOf(reg: UserRegistry, plate: string): (u: Option<UserProfile>)
    ensures plate == Unknown ==> u == Some(reg.dummy)
    ensures plate != Unknown ==> (u.Some? <==> plate in reg.byPlate)
    ensures Consistent(reg) && u.Some? && plate != Unknown ==> u.value.plate == Some(plate)
  {
    if plate == Unknown then Some(reg.dummy) else FindByPlate(reg, Some(plate))
  }

  /**
   * occupyBy(plate) at time `now`: occupied, arrival set, and the departure estimate
   * taken from the calendar when a profile is attached (kept otherwise).
   */
  function OccupyRecord(prev: SpotRecord, reg: UserRegistry, plate: string, now: int, calendar: Calendar): (r: SpotRecord)
    ensures r.Valid() && r.state == Occupied && r.arrival == Some(now)
    ensures r.user == OccupantOf(reg, plate)
    ensures r.user.None? ==> r.departure == prev.departure
  {
    var user := OccupantOf(reg, plate);
    SpotRecord(Occupied, user, Some(now), if user.Some? then calendar(user.value) else prev.departure)
  }

  /**
   * In a consistent registry an occupied spot reports the plate it was occupied by,
   * unless that plate is not registered, in which case it reports "UNKNOWN".
   */
  lemma OccupyReportsPlate(prev: SpotRecord, reg: UserRegistry, plate: string, now: int, calendar: Calendar)
    requires Consistent(reg)
    ensures OccupyRecord(prev, reg, plate, now, calendar).AssignedPlate()
            == if plate == Unknown || plate in reg.byPlate then plate else Unknown
  {
  }

  /** A reserved record reports the reserving plate when that plate is registered, "UNKNOWN" otherwise. */
  lemma ReserveReportsPlate(reg: UserRegistry, plate: string)
    requires Consistent(reg)
    ensures ReserveRecord(reg, Some(plate)).AssignedPlate() == if plate in reg.byPlate then plate else Unknown
  {
  }

  class SpotInfo {
    const spotId: string
    /** Lane and position, derived from the id (they are not part of the id's Java class). */
    const lane: int
    const pos: int

    var state: State
    var user: Option<UserProfile>
    var arrivalTime: Option<int>
    var estimatedDepartureTime: Option<int>

    function Record(): SpotRecord
      reads this
    {
      SpotRecord(state, user, arrivalTime, estimatedDepartureTime)
    }

    ghost predicate Valid()
      reads this
    {
      Record().Valid() && (lane, pos) == Topology.LanePos(spotId)
    }

    /** A new spot is free, with no user and no times. */
    constructor (id: string)
      ensures spotId == id && (lane, pos) == Topology.LanePos(id)
      ensures Record() == FreeRecord && Valid()
    {
      spotId := id;
      var lp := Topology.LanePos(id);
      lane, pos := lp.0, lp.1;
      state, user, arrivalTime, estimatedDepartureTime := Free, None, None, None;
    }

    method ReserveFor(reg: UserRegistry, plate: Option<string>)
      requires Valid()
      modifies this
      ensures Valid() && Record() == ReserveRecord(reg, plate)
    {
      user := FindByPlate(reg, plate);
      state := Reserved;
      arrivalTime := None;
      estimatedDepartureTime := None;
    }

    method OccupyBy(reg: UserRegistry, plate: string, now: int, calendar: Calendar)
      requires Valid()
      modifies this
      ensures Valid() && Record() == OccupyRecord(old(Record()), reg, plate, now, calendar)
    {
      state := Occupied;
      if plate == Unknown {
        user := Some(reg.dummy);
      } else {
        user := FindByPlate(reg, Some(plate));
      }
      arrivalTime := Some(now);
      if user.Some? {
        estimatedDepartureTime := calendar(user.value);
      }
    }

    method SetFree()
      requires Valid()
      modifies this
      ensures Valid() && Record() == FreeRecord
    {
      state := Free;
      user := None;
      arrivalTime := None;
      estimatedDepartureTime := None;
    }

    /** getAssignedPlate: the plate of the attached profile, or "UNKNOWN". */
    function GetAssignedPlate(): (p: string)
      reads this
      ensures Record().Valid() && state == Free ==> p == Unknown
      ensures user.Some? && user.value.plate.Some? ==> p == user.value.plate.value
    {
      Record().AssignedPlate()
    }
  }
}
