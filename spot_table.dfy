/**
 * The in-memory spot registry that both SpotAllocator classes keep: a map from
 * spot id to SpotInfo, together with the order in which the map is iterated.
 * The helpers whose behaviour both classes share (computeIfAbsent, findPendingUser,
 * freeReservationForUser, handleCarArrival, handleCarDeparture) live here.
 */
module SpotTable {
  import opened Wrappers
  import opened Spots

  predicate Distinct(s: seq<string>)
  {
    forall i, j :: 0 <= i < j < |s| ==> s[i] != s[j]
  }

  predicate IsReservedRecord(r: SpotRecord)
  {
    r.state == Reserved
  }

  /** A spot that freeReservationForUser(plate) releases: reserved, and reporting `plate`. */
  predicate Releases(r: SpotRecord, plate: string)
  {
    r.state == Reserved && r.AssignedPlate() == plate
  }

  /** Index of the first id in `order` whose record satisfies `p`; |order| when there is none. */
  function FirstWhere(order: seq<string>, recs: map<string, SpotRecord>, p: SpotRecord -> bool): (k: nat)
    ensures k <= |order|
    ensures k < |order| ==> order[k] in recs && p(recs[order[k]])
    ensures forall j :: 0 <= j < k ==> !(order[j] in recs && p(recs[order[j]]))
  {
    if order == [] then 0
    else if order[0] in recs && p(recs[order[0]]) then 0
    else 1 + FirstWhere(order[1..], recs, p)
  }

  /** The registry's contents, read in its iteration order. */
  datatype Snapshot = Snapshot(order: seq<string>, recs: map<string, SpotRecord>)
  {
    /** The order lists every id exactly once, and every record keeps the SpotInfo invariant. */
    ghost predicate WellFormed()
    {
      && (forall id :: id in recs <==> id in order)
      && Distinct(order)
      && (forall id :: id in recs ==> recs[id].Valid())
    }

    /** computeIfAbsent(id, new SpotInfo): a new id is appended as a free spot. */
    function Discover(id: string): (s: Snapshot)
      ensures id in s.recs
      ensures id in recs ==> s == this
      ensures id !in recs ==> s.order == order + [id] && s.recs == recs[id := FreeRecord]
      ensures WellFormed() ==> s.WellFormed()
    {
      if id in recs then this else Snapshot(order + [id], recs[id := FreeRecord])
    }

    /** findPendingUser: the plate of the first reserved spot in iteration order, if any. */
    function PendingUser(): (p: Option<string>)
      ensures p.None? <==> forall i :: 0 <= i < |order| && order[i] in recs ==> recs[order[i]].state != Reserved
      ensures p.Some? ==> exists i :: (
        && 0 <= i < |order| && order[i] in recs && recs[order[i]].state == Reserved
        && recs[order[i]].AssignedPlate() == p.value
        && forall j :: 0 <= j < i ==> !(order[j] in recs && recs[order[j]].state == Reserved))
    {
      var k := FirstWhere(order, recs, IsReservedRecord);
      if k < |order| then
        assert forall j :: 0 <= j < k ==> !(order[j] in recs && IsReservedRecord(recs[order[j]]));
        Some(recs[order[k]].AssignedPlate())
      else None
    }

    /** freeReservationForUser(plate): every spot reserved and reporting `plate` becomes free. */
    function ReleaseFor(plate: string): (s: Snapshot)
      ensures s.order == order && s.recs.Keys == recs.Keys
      ensures forall id :: id in s.recs ==> !Releases(s.recs[id], plate)
      ensures forall id :: id in recs && !Releases(recs[id], plate) ==> s.recs[id] == recs[id]
      ensures forall id :: id in recs && Releases(recs[id], plate) ==> s.recs[id] == FreeRecord
      ensures WellFormed() ==> s.WellFormed()
    {
      Snapshot(order, map id | id in recs :: if Releases(recs[id], plate) then FreeRecord else recs[id])
    }

    /** handleCarDeparture: the spot becomes free whatever its state. */
    function Depart(id: string): (s: Snapshot)
      requires id in recs
      ensures WellFormed() ==> s.WellFormed()
    {
      Snapshot(order, recs[id := FreeRecord])
    }

    /**
     * handleCarArrival on spot `id` at time `now`: a reserved spot is occupied by its
     * own plate; a free spot is taken to hold the first pending reservation's car,
     * whose reservations are released, or an unknown car; an occupied spot is kept.
     */
    function Arrive(id: string, reg: UserRegistry, now: int, calendar: Calendar): (s: Snapshot)
      requires id in recs
      ensures s.order == order && s.recs.Keys == recs.Keys
      ensures WellFormed() ==> s.WellFormed()
    {
      var r := recs[id];
      match r.state
      case Reserved =>
        Snapshot(order, recs[id := OccupyRecord(r, reg, r.AssignedPlate(), now, calendar)])
      case Free =>
        (match PendingUser()
         case Some(plate) =>
           var released := ReleaseFor(plate);
           Snapshot(order, released.recs[id := OccupyRecord(released.recs[id], reg, plate, now, calendar)])
         case None =>
           Snapshot(order, recs[id := OccupyRecord(r, reg, Unknown, now, calendar)]))
      case Occupied => this
    }
  }

  /** A registry that agrees with ReleaseFor(plate) spot by spot is ReleaseFor(plate). */
  lemma ReleaseForPointwise(s: Snapshot, plate: string, t: Snapshot)
    requires t.order == s.order && t.recs.Keys == s.recs.Keys
    requires forall id :: id in s.recs ==> t.recs[id] == if Releases(s.recs[id], plate) then FreeRecord else s.recs[id]
    ensures t == s.ReleaseFor(plate)
  {
  }

  /** Arrive on a free spot as the two steps handleCarArrival takes: release, then occupy. */
  lemma ArriveOnFreeSteps(s: Snapshot, id: string, reg: UserRegistry, now: int, calendar: Calendar)
    requires id in s.recs && s.recs[id].state == Free
    ensures s.PendingUser().Some? ==>
      var released := s.ReleaseFor(s.PendingUser().value);
      s.Arrive(id, reg, now, calendar)
        == Snapshot(s.order, released.recs[id := OccupyRecord(released.recs[id], reg, s.PendingUser().value, now, calendar)])
    ensures s.PendingUser().None? ==>
      s.Arrive(id, reg, now, calendar) == Snapshot(s.order, s.recs[id := OccupyRecord(s.recs[id], reg, Unknown, now, calendar)])
  {
  }

  /** A car arriving on its reserved spot occupies it under the plate it was reserved for. */
  lemma ArriveOnReserved(s: Snapshot, id: string, reg: UserRegistry, now: int, calendar: Calendar)
    requires id in s.recs && s.recs[id].state == Reserved
    ensures var t := s.Arrive(id, reg, now, calendar);
      && t.recs[id].state == Occupied && t.recs[id].arrival == Some(now)
      && forall j :: j in s.recs && j != id ==> t.recs[j] == s.recs[j]
    ensures Consistent(reg) && (s.recs[id].AssignedPlate() == Unknown || s.recs[id].AssignedPlate() in reg.byPlate) ==>
      s.Arrive(id, reg, now, calendar).recs[id].AssignedPlate() == s.recs[id].AssignedPlate()
  {
  }

  /**
   * A car on a free spot while some spot is reserved: it is taken for the first pending
   * plate, every reservation of that plate is released, nothing else changes.
   */
  lemma ArriveOnFreeWithPending(s: Snapshot, id: string, reg: UserRegistry, now: int, calendar: Calendar)
    requires id in s.recs && s.recs[id].state == Free
    requires s.PendingUser().Some?
    ensures var plate := s.PendingUser().value;
      var t := s.Arrive(id, reg, now, calendar);
      && t.recs[id].state == Occupied && t.recs[id].arrival == Some(now)
      && t.recs[id].user == OccupantOf(reg, plate)
      && (Consistent(reg) && plate in reg.byPlate ==> t.recs[id].AssignedPlate() == plate)
      && (forall j :: j in t.recs ==> !Releases(t.recs[j], plate))
      && (forall j :: j in s.recs && j != id ==>
            t.recs[j] == if Releases(s.recs[j], plate) then FreeRecord else s.recs[j])
  {
  }

  /** A car on a free spot while nothing is reserved is an unknown vehicle. */
  lemma ArriveOnFreeUnknown(s: Snapshot, id: string, reg: UserRegistry, now: int, calendar: Calendar)
    requires id in s.recs && s.recs[id].state == Free
    requires s.PendingUser().None?
    ensures var t := s.Arrive(id, reg, now, calendar);
      && t.recs == s.recs[id := t.recs[id]]
      && t.recs[id].state == Occupied && t.recs[id].user == Some(reg.dummy)
      && (Consistent(reg) ==> t.recs[id].AssignedPlate() == Unknown)
  {
  }

  /** The shared spot map and its iteration order. */
  class Table {
    var spots: map<string, SpotInfo>
    var order: seq<string>

    /** The records of all spots, as a value. */
    function View(): Snapshot
      reads this, spots.Values
    {
      Snapshot(order, map id | id in spots :: spots[id].Record())
    }

    ghost predicate Valid()
      reads this, spots.Values
    {
      && (forall id :: id in spots <==> id in order)
      && Distinct(order)
      && (forall id :: id in spots ==> spots[id].spotId == id && spots[id].Valid())
    }

    lemma ValidView()
      requires Valid()
      ensures View().WellFormed()
    {
    }

    constructor ()
      ensures Valid() && View() == Snapshot([], map[])
    {
      spots, order := map[], [];
    }

    /** computeIfAbsent(id, SpotInfo::new): the spot under `id`, created free when absent. */
    method GetOrCreate(id: string) returns (spot: SpotInfo)
      requires Valid()
      modifies this
      ensures Valid() && View() == old(View()).Discover(id)
      ensures id in spots && spot == spots[id]
      ensures id in old(spots) ==> spots == old(spots)
      ensures id !in old(spots) ==> fresh(spot) && spots == old(spots)[id := spot]
    {
      if id in spots {
        spot := spots[id];
      } else {
        spot := new SpotInfo(id);
        Insert(id, spot);
      }
    }

    /** The put half of computeIfAbsent: a new free spot is filed under a new id, at the end of the order. */
    method Insert(id: string, spot: SpotInfo)
      requires Valid() && id !in spots && spot !in spots.Values
      requires spot.spotId == id && spot.Valid() && spot.Record() == FreeRecord
      modifies this
      ensures Valid() && View() == Snapshot(old(order) + [id], old(View()).recs[id := FreeRecord])
      ensures spots == old(spots)[id := spot]
    {
      spots := spots[id := spot];
      order := order + [id];
      assert View().recs == old(View()).recs[id := FreeRecord];
    }

    /** freeReservationForUser(plate): walk the spots in order and free those reserved for `plate`. */
    method FreeReservationForUser(plate: string)
      requires Valid()
      modifies spots.Values
      ensures Valid() && View() == old(View()).ReleaseFor(plate)
    {
      ghost var s0 := View();
      var i := 0;
      while i < |order|
        invariant 0 <= i <= |order|
        invariant Valid()
        invariant forall id :: id in spots ==>
          spots[id].Record() == if id in order[..i] && Releases(old(spots[id].Record()), plate) then FreeRecord else old(spots[id].Record())
      {
        assert order[i] !in order[..i];
        ReleaseAt(i, plate);
        assert order[..i + 1] == order[..i] + [order[i]];
        i := i + 1;
      }
      assert order[..i] == order;
      ReleaseForPointwise(s0, plate, View());
    }

    /** One step of freeReservationForUser: free the spot at position `k` if it is reserved for `plate`. */
    method ReleaseAt(k: nat, plate: string)
      requires Valid() && k < |order|
      modifies spots[order[k]]
      ensures Valid()
      ensures forall id :: id in spots ==>
        spots[id].Record() == if id == order[k] && Releases(old(spots[id].Record()), plate) then FreeRecord else old(spots[id].Record())
    {
      var s := spots[order[k]];
      if s.state == Reserved && s.GetAssignedPlate() == plate {
        s.SetFree();
      }
    }

    /** spot.occupyBy(plate) on a spot of this table, seen from the table. */
    method OccupySpot(spot: SpotInfo, reg: UserRegistry, plate: string, now: int, calendar: Calendar)
      requires Valid() && spot.spotId in spots && spots[spot.spotId] == spot
      modifies spot
      ensures Valid()
      ensures View() == Snapshot(order, old(View()).recs[spot.spotId := OccupyRecord(old(spot.Record()), reg, plate, now, calendar)])
    {
      spot.OccupyBy(reg, plate, now, calendar);
      assert View().recs == old(View()).recs[spot.spotId := spot.Record()];
    }

    /** spot.reserveFor(plate) on a spot of this table, seen from the table. */
    method ReserveSpot(spot: SpotInfo, reg: UserRegistry, plate: Option<string>)
      requires Valid() && spot.spotId in spots && spots[spot.spotId] == spot
      modifies spot
      ensures Valid()
      ensures View() == Snapshot(order, old(View()).recs[spot.spotId := ReserveRecord(reg, plate)])
    {
      spot.ReserveFor(reg, plate);
      assert View().recs == old(View()).recs[spot.spotId := spot.Record()];
    }

    /** handleCarArrival(spot): the sensor under `spot` reports a car. */
    method HandleCarArrival(spot: SpotInfo, reg: UserRegistry, now: int, calendar: Calendar)
      requires Valid() && spot.spotId in spots && spots[spot.spotId] == spot
      modifies spots.Values
      ensures Valid() && View() == old(View()).Arrive(spot.spotId, reg, now, calendar)
    {
      ghost var s0 := View();
      assert s0.recs[spot.spotId] == spot.Record();
      if spot.state == Reserved {
        var plate := spot.GetAssignedPlate();
        OccupySpot(spot, reg, plate, now, calendar);
      } else if spot.state == Free {
        ArriveOnFree(spot, reg, now, calendar);
      }
    }

    /** The free-spot case of handleCarArrival: the first pending plate's car, or an unknown one. */
    method ArriveOnFree(spot: SpotInfo, reg: UserRegistry, now: int, calendar: Calendar)
      requires Valid() && spot.spotId in spots && spots[spot.spotId] == spot && spot.state == Free
      modifies spots.Values
      ensures Valid() && View() == old(View()).Arrive(spot.spotId, reg, now, calendar)
    {
      ghost var s0 := View();
      assert s0.recs[spot.spotId] == spot.Record();
      var pending := View().PendingUser();
      if pending.Some? {
        ReleaseAndOccupy(spot, reg, pending.value, now, calendar);
        ArriveOnFreeSteps(s0, spot.spotId, reg, now, calendar);
      } else {
        OccupySpot(spot, reg, Unknown, now, calendar);
        ArriveOnFreeSteps(s0, spot.spotId, reg, now, calendar);
      }
    }

    /** The spot's occupant is `plate`: that user's reservations are released first. */
    method ReleaseAndOccupy(spot: SpotInfo, reg: UserRegistry, plate: string, now: int, calendar: Calendar)
      requires Valid() && spot.spotId in spots && spots[spot.spotId] == spot
      modifies spots.Values
      ensures Valid()
      ensures var released := old(View()).ReleaseFor(plate);
        View() == Snapshot(released.order, released.recs[spot.spotId := OccupyRecord(released.recs[spot.spotId], reg, plate, now, calendar)])
    {
      FreeReservationForUser(plate);
      ghost var released := View();
      ghost var rec := spot.Record();
      assert released.recs[spot.spotId] == rec;
      OccupySpot(spot, reg, plate, now, calendar);
    }

    /** handleCarDeparture(spot): the sensor under `spot` reports no car; the spot is freed. */
    method HandleCarDeparture(spot: SpotInfo)
      requires Valid() && spot.spotId in spots && spots[spot.spotId] == spot
      modifies spot
      ensures Valid() && View() == old(View()).Depart(spot.spotId)
    {
      spot.SetFree();
      assert View().recs == old(View()).Depart(spot.spotId).recs;
    }
  }
}
