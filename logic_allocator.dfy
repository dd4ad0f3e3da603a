/**
 * The earlier SpotAllocator (logic/SpotAllocator.java): reserves the first free
 * spot, applies every sensor reading (a "free" reading frees the spot whatever
 * its state), and hands a state message to a registered listener when a spot's
 * logical state changes.
 */
module LogicAllocator {
  import opened Wrappers
  import opened Spots
  import opened SpotTable

  /** SpotStateMessage: what the listener receives; instants are passed unformatted. */
  datatype SpotStateMessage = SpotStateMessage(
    spotId: string, state: string, plate: string, arrivalTime: Option<int>, estimatedDepartureTime: Option<int>)

  /** The message notifyChange builds from a spot's id and current record. */
  function MessageFor(id: string, r: SpotRecord): SpotStateMessage
  {
    SpotStateMessage(id, StateName(r.state), r.AssignedPlate(), r.arrival, r.departure)
  }

  /**
   * A message about a valid record names the spot and its state; a free spot is
   * announced with plate "UNKNOWN" and no times, an occupied one with its arrival.
   */
  lemma MessageOfValidRecord(id: string, r: SpotRecord)
    requires r.Valid()
    ensures var m := MessageFor(id, r);
      && m.spotId == id
      && (m.state == "free" <==> r.state == Free)
      && (m.state == "occupied" <==> r.state == Occupied)
      && (r.state == Free ==> m.plate == Unknown && m.arrivalTime.None? && m.estimatedDepartureTime.None?)
      && (m.arrivalTime.Some? <==> r.state == Occupied)
  {
  }

  predicate IsFreeRecord(r: SpotRecord)
  {
    r.state == Free
  }

  /** reserveSpotForUser: the first free spot in iteration order becomes reserved for the plate. */
  function ReserveFirstFree(s: Snapshot, reg: UserRegistry, plate: Option<string>): (Option<string>, Snapshot)
  {
    var k := FirstWhere(s.order, s.recs, IsFreeRecord);
    if k == |s.order| then (None, s)
    else (Some(s.order[k]), Snapshot(s.order, s.recs[s.order[k] := ReserveRecord(reg, plate)]))
  }

  /**
   * Nothing is reserved, and nothing changes, exactly when no spot is free; otherwise
   * the first free spot in iteration order alone becomes reserved for the plate.
   */
  lemma ReserveFirstFreeOutcome(s: Snapshot, reg: UserRegistry, plate: Option<string>)
    requires s.WellFormed()
    ensures var (choice, t) := ReserveFirstFree(s, reg, plate);
      && (choice.None? <==> forall id :: id in s.recs ==> s.recs[id].state != Free)
      && (choice.None? ==> t == s)
      && (choice.Some? ==>
            && choice.value in s.recs && s.recs[choice.value].state == Free
            && (forall i :: 0 <= i < |s.order| && s.order[i] == choice.value ==>
                  forall j :: 0 <= j < i ==> s.recs[s.order[j]].state != Free)
            && t.order == s.order && t.WellFormed()
            && t.recs == s.recs[choice.value := ReserveRecord(reg, plate)])
  {
  }

  /** handleSensorUpdate on the registry's contents: discovery, then arrival or departure. */
  function SensorUpdate(s: Snapshot, id: string, sensorOccupied: bool, reg: UserRegistry, now: int, calendar: Calendar): (t: Snapshot)
    ensures s.WellFormed() ==> t.WellFormed()
  {
    var d := s.Discover(id);
    if sensorOccupied then d.Arrive(id, reg, now, calendar) else d.Depart(id)
  }

  /**
   * A "free" reading frees the spot whatever its state, reserved included; an
   * "occupied" reading on an occupied spot changes nothing.
   */
  lemma SensorUpdateReadings(s: Snapshot, id: string, reg: UserRegistry, now: int, calendar: Calendar)
    ensures var t := SensorUpdate(s, id, false, reg, now, calendar);
      t.order == s.Discover(id).order && t.recs == s.Discover(id).recs[id := FreeRecord]
    ensures id in s.recs && s.recs[id].state == Occupied ==> SensorUpdate(s, id, true, reg, now, calendar) == s
  {
  }

  /** The change test of handleSensorUpdate (getAssignedPlate is never null, so only the plates are compared). */
  predicate Changed(before: SpotRecord, after: SpotRecord)
  {
    after.state != before.state || after.AssignedPlate() != before.AssignedPlate()
  }

  /** Messages published by one handleSensorUpdate: discovery of a new spot, then the change, if any. */
  function SensorMessages(s: Snapshot, id: string, sensorOccupied: bool, reg: UserRegistry, now: int, calendar: Calendar): (ms: seq<SpotStateMessage>)
  {
    var d := s.Discover(id);
    var t := SensorUpdate(s, id, sensorOccupied, reg, now, calendar);
    (if id in s.recs then [] else [MessageFor(id, FreeRecord)]) + ChangeMessages(id, d.recs[id], t.recs[id])
  }

  /** The change notification for one spot: one message with the new record when it changed. */
  function ChangeMessages(id: string, before: SpotRecord, after: SpotRecord): seq<SpotStateMessage>
  {
    if Changed(before, after) then [MessageFor(id, after)] else []
  }

  /** At most one change message, present exactly on a change, carrying the new state and plate. */
  lemma ChangeMessagesOnChange(id: string, before: SpotRecord, after: SpotRecord)
    ensures var ms := ChangeMessages(id, before, after);
      && |ms| <= 1 && (ms != [] <==> Changed(before, after))
      && forall m :: m in ms ==> m.spotId == id && m.state == StateName(after.state) && m.plate == after.AssignedPlate()
  {
  }

  /**
   * Only the reported spot is ever announced: spots whose reservation is released
   * on the way are not. A known spot is announced exactly when its state or plate changed.
   */
  lemma SensorMessagesOnlyOnChange(s: Snapshot, id: string, sensorOccupied: bool, reg: UserRegistry, now: int, calendar: Calendar)
    requires id in s.recs
    ensures var ms := SensorMessages(s, id, sensorOccupied, reg, now, calendar);
      var t := SensorUpdate(s, id, sensorOccupied, reg, now, calendar);
      && (forall m :: m in ms ==> m.spotId == id)
      && (|ms| > 0 <==> Changed(s.recs[id], t.recs[id]))
      && (sensorOccupied && s.recs[id].state == Occupied ==> ms == [])
      && (!sensorOccupied && s.recs[id].state == Reserved ==> ms == [MessageFor(id, FreeRecord)])
  {
  }

  /** The messages of one reading: the discovery part followed by the change part. */
  lemma SensorMessagesParts(s: Snapshot, id: string, sensorOccupied: bool, reg: UserRegistry, now: int, calendar: Calendar,
                            before: SpotRecord, after: SpotRecord)
    requires before == s.Discover(id).recs[id]
    requires after == SensorUpdate(s, id, sensorOccupied, reg, now, calendar).recs[id]
    ensures SensorMessages(s, id, sensorOccupied, reg, now, calendar)
      == (if id in s.recs then [] else [MessageFor(id, FreeRecord)]) + ChangeMessages(id, before, after)
  {
  }

  lemma AppendAssociative<T>(a: seq<T>, b: seq<T>, c: seq<T>)
    ensures (a + b) + c == a + (b + c)
  {
  }

  class SpotAllocator {
    const table: Table
    /** Whether setOnStateChange registered a listener. */
    var hasListener: bool
    /** Every message handed to the listener, oldest first. */
    var published: seq<SpotStateMessage>

    ghost predicate Valid()
      reads this, table, table.spots.Values
    {
      table.Valid()
    }

    constructor ()
      ensures Valid() && fresh(table) && table.View() == Snapshot([], map[])
      ensures !hasListener && published == []
    {
      table := new Table();
      hasListener := false;
      published := [];
    }

    /** setOnStateChange: register (or, with null, unregister) the listener. */
    method SetOnStateChange(registered: bool)
      modifies this`hasListener
      ensures hasListener == registered
    {
      hasListener := registered;
    }

    /** notifyChange: hand the spot's state message to the listener, if one is registered. */
    method NotifyChange(spot: SpotInfo)
      requires Valid()
      modifies this`published
      ensures Valid() && table.View() == old(table.View())
      ensures published == old(published) + if hasListener then [MessageFor(spot.spotId, spot.Record())] else []
    {
      if hasListener {
        published := published + [MessageFor(spot.spotId, spot.Record())];
      }
    }

    /** reserveSpotForUser: reserve the first free spot and announce it; the id, or None (null). */
    method ReserveSpotForUser(user: UserProfile, reg: UserRegistry) returns (spotId: Option<string>)
      requires Valid()
      modifies table.spots.Values, this`published
      ensures Valid()
      ensures var (choice, after) := ReserveFirstFree(old(table.View()), reg, user.plate);
        && spotId == choice && table.View() == after
        && published == old(published) +
             if hasListener && choice.Some? then [MessageFor(choice.value, after.recs[choice.value])] else []
    {
      var v := table.View();
      table.ValidView();
      var k := FirstWhere(v.order, v.recs, IsFreeRecord);
      if k < |v.order| {
        var spot := table.spots[v.order[k]];
        assert spot.spotId == v.order[k];
        table.ReserveSpot(spot, reg, user.plate);
        ghost var after := table.View();
        assert after == ReserveFirstFree(v, reg, user.plate).1;
        assert after.recs[spot.spotId] == spot.Record();
        ghost var msg := MessageFor(spot.spotId, spot.Record());
        assert msg == MessageFor(spot.spotId, after.recs[spot.spotId]);
        NotifyChange(spot);
        assert table.View() == after;
        assert published == old(published) + if hasListener then [msg] else [];
        spotId := Some(spot.spotId);
      } else {
        spotId := None;
      }
    }

    /** The reading applied to a known spot, followed by the change notification. */
    method ApplyReading(spot: SpotInfo, sensorOccupied: bool, reg: UserRegistry, now: int, calendar: Calendar)
      requires Valid() && spot.spotId in table.spots && table.spots[spot.spotId] == spot
      modifies table.spots.Values, this`published
      ensures Valid()
      ensures table.View() == if sensorOccupied then old(table.View()).Arrive(spot.spotId, reg, now, calendar) else old(table.View()).Depart(spot.spotId)
      ensures published == old(published) + if hasListener then ChangeMessages(spot.spotId, old(spot.Record()), spot.Record()) else []
    {
      var before := spot.Record();
      assert table.View().recs[spot.spotId] == before;
      if sensorOccupied {
        table.HandleCarArrival(spot, reg, now, calendar);
      } else {
        table.HandleCarDeparture(spot);
      }
      assert table.View().recs[spot.spotId] == spot.Record();
      NotifyIfChanged(spot, before);
    }

    /** The change test of handleSensorUpdate against the spot's record before the reading. */
    method NotifyIfChanged(spot: SpotInfo, before: SpotRecord)
      requires Valid()
      modifies this`published
      ensures Valid() && table.View() == old(table.View())
      ensures published == old(published) + if hasListener then ChangeMessages(spot.spotId, before, spot.Record()) else []
    {
      if spot.state != before.state || spot.GetAssignedPlate() != before.AssignedPlate() {
        NotifyChange(spot);
      }
    }

    /** computeIfAbsent in handleSensorUpdate: a new spot is created free and announced. */
    method DiscoverSpot(spotId: string) returns (spot: SpotInfo)
      requires Valid()
      modifies table, this`published
      ensures Valid()
      ensures table.View() == old(table.View()).Discover(spotId)
      ensures spotId in table.spots && spot == table.spots[spotId] && spot.Record() == table.View().recs[spotId]
      ensures spotId in old(table.spots) ==> table.spots == old(table.spots)
      ensures spotId !in old(table.spots) ==> fresh(spot) && table.spots == old(table.spots)[spotId := spot]
      ensures fresh(table.spots.Values - old(table.spots.Values))
      ensures published == old(published) +
        if hasListener && spotId !in old(table.View()).recs then [MessageFor(spotId, FreeRecord)] else []
    {
      var known := spotId in table.spots;
      spot := table.GetOrCreate(spotId);
      ghost var d := table.View();
      assert spot.Record() == d.recs[spotId];
      if !known {
        assert spot.Record() == FreeRecord;
        NotifyChange(spot);
        assert table.View() == d;
      }
    }

    /** handleSensorUpdate: reconcile the reading, announcing discovery and any logical change. */
    method HandleSensorUpdate(spotId: string, sensorOccupied: bool, reg: UserRegistry, now: int, calendar: Calendar)
      requires Valid()
      modifies table, table.spots.Values, this`published
      ensures Valid()
      ensures table.View() == SensorUpdate(old(table.View()), spotId, sensorOccupied, reg, now, calendar)
      ensures published == old(published) +
        if hasListener then SensorMessages(old(table.View()), spotId, sensorOccupied, reg, now, calendar) else []
      ensures spotId in old(table.spots) ==> table.spots == old(table.spots)
      ensures spotId !in old(table.spots) ==> fresh(table.spots[spotId]) && table.spots == old(table.spots)[spotId := table.spots[spotId]]
      ensures fresh(table.spots.Values - old(table.spots.Values))
    {
      ghost var s0 := table.View();
      ghost var p0 := published;
      ghost var h := hasListener;
      ghost var discovery: seq<SpotStateMessage> := if spotId in s0.recs then [] else [MessageFor(spotId, FreeRecord)];
      var spot := DiscoverSpot(spotId);
      ghost var p1 := published;
      ghost var before := spot.Record();
      ghost var spots1 := table.spots;
      ApplyReading(spot, sensorOccupied, reg, now, calendar);
      assert table.spots == spots1;
      ghost var change := ChangeMessages(spotId, before, spot.Record());
      SensorMessagesParts(s0, spotId, sensorOccupied, reg, now, calendar, before, spot.Record());
      if h {
        AppendAssociative(p0, discovery, change);
      }
    }
  }
}
