/**
 * The scoring SpotAllocator (service/SpotAllocator.java): reserves the cheapest
 * free spot that respects the stack-lane backfill rule, reconciles sensor readings
 * with the logical state, and lists the cars that block a given plate.
 */
module ServiceAllocator {
  import opened Wrappers
  import opened Topology
  import opened Spots
  import opened SpotTable

  const SecondsPerHour: int := 3600
  /** A stay of more than this many whole hours makes a long-term parker. */
  const LongTermHours: int := 4
  /** Penalty for a long-term parker on a blocking lane, and per free spot a car would block. */
  const BlockPenalty: int := 1000

  /** Java's long division, which truncates toward zero. */
  function TruncDiv(a: int, b: int): int
    requires b > 0
  {
    if a >= 0 then a / b else -((-a) / b)
  }

  /** durationHours: whole hours from `now` to the estimated end, or 1 without an estimate. */
  function DurationHours(now: int, endTime: Option<int>): (h: int)
    ensures endTime.None? ==> h == 1
    ensures endTime.Some? && endTime.value >= now ==>
      0 <= h && h * SecondsPerHour <= endTime.value - now < (h + 1) * SecondsPerHour
    ensures endTime.Some? && endTime.value < now ==>
      h <= 0 && (h - 1) * SecondsPerHour < endTime.value - now <= h * SecondsPerHour
  {
    match endTime
    case Some(e) => TruncDiv(e - now, SecondsPerHour)
    case None => 1
  }

  predicate IsLongTerm(now: int, endTime: Option<int>)
  {
    DurationHours(now, endTime) > LongTermHours
  }

  /** Long-term exactly when an estimate exists and lies at least five hours ahead. */
  lemma LongTermIff(now: int, endTime: Option<int>)
    ensures IsLongTerm(now, endTime) <==> endTime.Some? && endTime.value - now >= (LongTermHours + 1) * SecondsPerHour
  {
  }

  /**
   * obeysBackfillRules: in a stack lane a spot may be taken only when the spot
   * behind it (pos + 1, same lane) does not exist or is not free.
   */
  predicate ObeysBackfill(recs: map<string, SpotRecord>, lane: int, pos: int)
  {
    var behind := CreateSpotId(lane, pos + 1);
    !IsStackLane(lane) || !(behind in recs && recs[behind].state == Free)
  }

  predicate IsFreeIn(recs: map<string, SpotRecord>, id: string)
  {
    id in recs && recs[id].state == Free
  }

  /** A candidate of reserveSpotForUser: a free spot that obeys the backfill rule. */
  predicate Eligible(recs: map<string, SpotRecord>, id: string)
  {
    IsFreeIn(recs, id) && ObeysBackfill(recs, LanePos(id).0, LanePos(id).1)
  }

  /** Number of entries of `ids` naming an existing free spot. */
  function CountFreeIds(recs: map<string, SpotRecord>, ids: seq<string>): (n: nat)
    ensures n <= |ids|
  {
    if ids == [] then 0 else (if IsFreeIn(recs, ids[0]) then 1 else 0) + CountFreeIds(recs, ids[1..])
  }

  /** Over a list without repetitions, the count is the number of distinct free spots named. */
  lemma {:induction false} CountFreeIdsIsCardinality(recs: map<string, SpotRecord>, ids: seq<string>)
    requires Distinct(ids)
    ensures CountFreeIds(recs, ids) == |set id | id in ids && IsFreeIn(recs, id)|
  {
    if ids != [] {
      var rest := ids[1..];
      assert Distinct(rest) by {
        forall i, j | 0 <= i < j < |rest| ensures rest[i] != rest[j] {
          assert rest[i] == ids[i + 1] && rest[j] == ids[j + 1];
        }
      }
      CountFreeIdsIsCardinality(recs, rest);
      var all := set id | id in ids && IsFreeIn(recs, id);
      var tail := set id | id in rest && IsFreeIn(recs, id);
      assert ids[0] !in rest by {
        forall j | 0 <= j < |rest| ensures rest[j] != ids[0] {
          assert rest[j] == ids[j + 1];
        }
      }
      if IsFreeIn(recs, ids[0]) {
        assert all == tail + {ids[0]};
      } else {
        assert all == tail;
      }
    }
  }

  /** calculateScore: the cost of putting the user at (lane, pos); lower is better. */
  function Score(recs: map<string, SpotRecord>, lane: int, pos: int, longTerm: bool): int
  {
    var isBlocker := BlockedLane(lane) != NoLane;
    var distance := pos * 10;
    var strategy := if longTerm then -(pos * 25) + (if isBlocker then BlockPenalty else 0) else 0;
    var collateral := if isBlocker then CountFreeIds(recs, BlockedSpotIds(lane, pos)) * BlockPenalty else 0;
    distance + strategy + collateral
  }

  function ScoreOf(recs: map<string, SpotRecord>, id: string, longTerm: bool): int
  {
    Score(recs, LanePos(id).0, LanePos(id).1, longTerm)
  }

  /**
   * The score as a sum of its terms: 10 per position from the gate; for long-term
   * parkers 25 less per position and 1000 more on a blocking lane; and 1000 for
   * every distinct free spot the car would block.
   */
  lemma ScoreBreakdown(recs: map<string, SpotRecord>, lane: int, pos: nat, longTerm: bool)
    ensures var freeBlocked := set id | id in BlockedSpotIds(lane, pos) && IsFreeIn(recs, id);
      && |freeBlocked| <= 2
      && (!IsStackLane(lane) ==> freeBlocked == {})
      && Score(recs, lane, pos, longTerm)
         == 10 * pos
            + (if longTerm then (if IsStackLane(lane) then BlockPenalty else 0) - 25 * pos else 0)
            + BlockPenalty * |freeBlocked|
  {
    var ids := BlockedSpotIds(lane, pos);
    if IsStackLane(lane) {
      BlockedSpotIdsDisjoint(lane, pos, pos + 1);
      assert Distinct(ids);
    }
    CountFreeIdsIsCardinality(recs, ids);
  }

  /**
   * Index of the first element of `xs` of least cost among those satisfying `ok`
   * (Stream.min keeps the earlier of two equal elements); |xs| when none does.
   */
  function MinFirst<T>(xs: seq<T>, ok: T -> bool, cost: T -> int): (k: nat)
    ensures k <= |xs|
    ensures k == |xs| <==> forall i :: 0 <= i < |xs| ==> !ok(xs[i])
    ensures k < |xs| ==> ok(xs[k])
    ensures k < |xs| ==> forall i :: 0 <= i < |xs| && ok(xs[i]) ==> cost(xs[k]) <= cost(xs[i])
    ensures k < |xs| ==> forall i :: 0 <= i < k && ok(xs[i]) ==> cost(xs[k]) < cost(xs[i])
  {
    if xs == [] then 0
    else
      var rest := MinFirst(xs[1..], ok, cost);
      if ok(xs[0]) && (rest == |xs| - 1 || cost(xs[0]) <= cost(xs[1..][rest])) then 0
      else 1 + rest
  }

  /** The spot reserveSpotForUser picks: the first eligible spot of least score, in iteration order. */
  function SelectFrom(order: seq<string>, recs: map<string, SpotRecord>, longTerm: bool): (choice: Option<string>)
    ensures choice.None? <==> forall i :: 0 <= i < |order| ==> !Eligible(recs, order[i])
    ensures choice.Some? ==> choice.value in order && Eligible(recs, choice.value)
    ensures choice.Some? ==> forall i :: 0 <= i < |order| && Eligible(recs, order[i]) ==>
      ScoreOf(recs, choice.value, longTerm) <= ScoreOf(recs, order[i], longTerm)
    ensures choice.Some? ==> exists k :: (
      && 0 <= k < |order| && order[k] == choice.value
      && forall i :: 0 <= i < k && Eligible(recs, order[i]) ==> ScoreOf(recs, choice.value, longTerm) < ScoreOf(recs, order[i], longTerm))
  {
    var k := MinFirst(order, id => Eligible(recs, id), id => ScoreOf(recs, id, longTerm));
    if k < |order| then Some(order[k]) else None
  }

  /** reserveSpotForUser on the registry's contents: the chosen id and the new contents. */
  function ReserveScored(s: Snapshot, reg: UserRegistry, plate: Option<string>, longTerm: bool): (Option<string>, Snapshot)
  {
    match SelectFrom(s.order, s.recs, longTerm)
    case None => (None, s)
    case Some(id) => (Some(id), Snapshot(s.order, s.recs[id := ReserveRecord(reg, plate)]))
  }

  /** Nothing is reserved, and nothing changes, exactly when no free spot obeys the backfill rule. */
  lemma ReserveScoredNone(s: Snapshot, reg: UserRegistry, plate: Option<string>, longTerm: bool)
    requires s.WellFormed()
    ensures var (choice, t) := ReserveScored(s, reg, plate, longTerm);
      && (choice.None? <==> forall id :: id in s.recs ==> !Eligible(s.recs, id))
      && (choice.None? ==> t == s)
  {
  }

  /**
   * When a spot is chosen, it was free and obeyed the backfill rule, no eligible
   * spot scores less, and it alone becomes reserved for the plate.
   */
  lemma ReserveScoredSome(s: Snapshot, reg: UserRegistry, plate: Option<string>, longTerm: bool)
    requires s.WellFormed()
    requires ReserveScored(s, reg, plate, longTerm).0.Some?
    ensures var (choice, t) := ReserveScored(s, reg, plate, longTerm);
      var id := choice.value;
      && id in s.recs && Eligible(s.recs, id)
      && (forall j :: j in s.recs && Eligible(s.recs, j) ==> ScoreOf(s.recs, id, longTerm) <= ScoreOf(s.recs, j, longTerm))
      && t.order == s.order && t.WellFormed()
      && t.recs == s.recs[id := ReserveRecord(reg, plate)]
  {
    var k := MinFirst(s.order, id => Eligible(s.recs, id), id => ScoreOf(s.recs, id, longTerm));
    forall j | j in s.recs && Eligible(s.recs, j)
      ensures ScoreOf(s.recs, s.order[k], longTerm) <= ScoreOf(s.recs, j, longTerm)
    {
      var i :| 0 <= i < |s.order| && s.order[i] == j;
    }
  }

  /** A stack-lane spot is never chosen while the spot behind it is free, so no free spot gets trapped. */
  lemma ReserveNeverTraps(s: Snapshot, reg: UserRegistry, plate: Option<string>, longTerm: bool)
    requires ReserveScored(s, reg, plate, longTerm).0.Some?
    ensures var id := ReserveScored(s, reg, plate, longTerm).0.value;
      var (lane, pos) := LanePos(id);
      IsStackLane(lane) ==> !IsFreeIn(s.recs, CreateSpotId(lane, pos + 1))
  {
    var id := ReserveScored(s, reg, plate, longTerm).0.value;
    assert SelectFrom(s.order, s.recs, longTerm) == Some(id);
    assert Eligible(s.recs, id);
    assert ObeysBackfill(s.recs, LanePos(id).0, LanePos(id).1);
  }

  /** handleSensorUpdate on the registry's contents. */
  function SensorUpdate(s: Snapshot, id: string, sensorOccupied: bool, reg: UserRegistry, now: int, calendar: Calendar): (t: Snapshot)
    ensures s.WellFormed() ==> t.WellFormed()
  {
    var d := s.Discover(id);
    if sensorOccupied == (d.recs[id].state == Occupied) then d
    else if sensorOccupied then d.Arrive(id, reg, now, calendar)
    else d.Depart(id)
  }

  /**
   * An unknown id is first registered as a free spot; a reading that agrees with
   * the logical occupancy changes nothing, so a reserved spot reported free stays reserved.
   */
  lemma SensorUpdateAgreeing(s: Snapshot, id: string, sensorOccupied: bool, reg: UserRegistry, now: int, calendar: Calendar)
    ensures var t := SensorUpdate(s, id, sensorOccupied, reg, now, calendar);
      && (id !in s.recs ==> t.order == s.order + [id])
      && (id !in s.recs && !sensorOccupied ==> t.recs == s.recs[id := FreeRecord])
      && (id in s.recs && sensorOccupied == (s.recs[id].state == Occupied) ==> t == s)
      && (id in s.recs && s.recs[id].state == Reserved && !sensorOccupied ==> t == s)
  {
  }

  /** A departure from an occupied spot frees it and clears its plate; nothing else changes. */
  lemma SensorUpdateDeparture(s: Snapshot, id: string, reg: UserRegistry, now: int, calendar: Calendar)
    requires id in s.recs && s.recs[id].state == Occupied
    ensures var t := SensorUpdate(s, id, false, reg, now, calendar);
      t == Snapshot(s.order, s.recs[id := FreeRecord]) && t.recs[id].AssignedPlate() == Unknown
  {
  }

  /** findBlockersforPlate's test for the plate's own spot: not free, and reporting `plate`. */
  predicate HoldsPlate(plate: string, r: SpotRecord)
  {
    r.state != Free && r.AssignedPlate() == plate
  }

  /** The entries of `ids` that name an existing spot that is not free, in list order. */
  function NonFreeIds(recs: map<string, SpotRecord>, ids: seq<string>): (r: seq<string>)
    ensures forall id :: id in r <==> id in ids && id in recs && recs[id].state != Free
    ensures |r| <= |ids|
  {
    if ids == [] then []
    else
      var rest := NonFreeIds(recs, ids[1..]);
      if ids[0] in recs && recs[ids[0]].state != Free then [ids[0]] + rest else rest
  }

  /** The filter works entry by entry: it keeps the list order and every repetition. */
  lemma {:induction false} NonFreeIdsAppend(recs: map<string, SpotRecord>, a: seq<string>, b: seq<string>)
    ensures NonFreeIds(recs, a + b) == NonFreeIds(recs, a) + NonFreeIds(recs, b)
  {
    if a != [] {
      assert (a + b)[0] == a[0] && (a + b)[1..] == a[1..] + b;
      NonFreeIdsAppend(recs, a[1..], b);
    } else {
      assert a + b == b;
    }
  }

  /**
   * findBlockersforPlate: nothing when no non-free spot reports the plate; otherwise the
   * existing, non-free spots among the blocking ids of the first such spot in iteration order.
   */
  function Blockers(s: Snapshot, plate: string, blockingOf: (int, int) -> seq<string>): (r: seq<string>)
    ensures forall id :: id in r ==> id in s.recs && s.recs[id].state != Free
    ensures (forall id :: id in s.recs ==> !HoldsPlate(plate, s.recs[id])) ==> r == []
  {
    var k := FirstWhere(s.order, s.recs, r => HoldsPlate(plate, r));
    if k == |s.order| then []
    else
      var (lane, pos) := LanePos(s.order[k]);
      NonFreeIds(s.recs, blockingOf(lane, pos))
  }

  /**
   * When position i of the iteration order is the first to hold the plate, the blockers
   * are the existing, non-free spots among that spot's blocking ids, in their order.
   */
  lemma BlockersOfHolder(s: Snapshot, plate: string, blockingOf: (int, int) -> seq<string>, i: nat)
    requires i < |s.order| && s.order[i] in s.recs && HoldsPlate(plate, s.recs[s.order[i]])
    requires forall j :: 0 <= j < i ==> !(s.order[j] in s.recs && HoldsPlate(plate, s.recs[s.order[j]]))
    ensures var (lane, pos) := LanePos(s.order[i]);
      Blockers(s, plate, blockingOf) == NonFreeIds(s.recs, blockingOf(lane, pos))
  {
  }

  class SpotAllocator {
    const table: Table

    ghost predicate Valid()
      reads this, table, table.spots.Values
    {
      table.Valid()
    }

    constructor ()
      ensures Valid() && fresh(table) && table.View() == Snapshot([], map[])
    {
      table := new Table();
    }

    /** getFreeSpotCount: the number of free spots, written in decimal. */
    function GetFreeSpotCount(): (r: string)
      reads this, table, table.spots.Values
      requires Valid()
      ensures AllDigits(r) && |r| > 0
      ensures ParseNat(r) == |set id | id in table.spots && table.spots[id].state == Free|
    {
      var v := table.View();
      table.ValidView();
      CountFreeIdsIsCardinality(v.recs, v.order);
      ParseNatToString(CountFreeIds(v.recs, v.order));
      assert (set id | id in v.order && IsFreeIn(v.recs, id)) == (set id | id in table.spots && table.spots[id].state == Free);
      NatToString(CountFreeIds(v.recs, v.order))
    }

    /**
     * reserveSpotForUser: classify the user by the calendar's end time, pick the
     * cheapest eligible spot and reserve it for the user's plate.
     */
    method ReserveSpotForUser(user: UserProfile, reg: UserRegistry, now: int, calendar: Calendar) returns (spot: SpotInfo?)
      requires Valid()
      modifies table.spots.Values
      ensures Valid()
      ensures var (choice, after) := ReserveScored(old(table.View()), reg, user.plate, IsLongTerm(now, calendar(user)));
        && table.View() == after
        && (spot == null <==> choice.None?)
        && (spot != null ==> choice == Some(spot.spotId) && spot.spotId in table.spots && table.spots[spot.spotId] == spot)
    {
      var isLongTerm := IsLongTerm(now, calendar(user));
      var choice := SelectFrom(table.order, table.View().recs, isLongTerm);
      if choice.Some? {
        table.ValidView();
        spot := table.spots[choice.value];
        table.ReserveSpot(spot, reg, user.plate);
      } else {
        spot := null;
      }
    }

    /** handleSensorUpdate: reconcile one sensor reading with the logical state of its spot. */
    method HandleSensorUpdate(spotId: string, sensorOccupied: bool, reg: UserRegistry, now: int, calendar: Calendar)
      returns (spot: SpotInfo)
      requires Valid()
      modifies table, table.spots.Values
      ensures Valid()
      ensures table.View() == SensorUpdate(old(table.View()), spotId, sensorOccupied, reg, now, calendar)
      ensures spotId in table.spots && spot == table.spots[spotId]
      ensures spotId in old(table.spots) ==> table.spots == old(table.spots)
      ensures spotId !in old(table.spots) ==> fresh(table.spots[spotId]) && table.spots == old(table.spots)[spotId := table.spots[spotId]]
      ensures fresh(table.spots.Values - old(table.spots.Values))
    {
      spot := table.GetOrCreate(spotId);
      Reconcile(spot, sensorOccupied, reg, now, calendar);
    }

    /** The reading against the spot's logical occupancy: arrival, departure or nothing. */
    method Reconcile(spot: SpotInfo, sensorOccupied: bool, reg: UserRegistry, now: int, calendar: Calendar)
      requires Valid() && spot.spotId in table.spots && table.spots[spot.spotId] == spot
      modifies table.spots.Values
      ensures Valid()
      ensures var s := old(table.View());
        table.View() ==
          if sensorOccupied == (s.recs[spot.spotId].state == Occupied) then s
          else if sensorOccupied then s.Arrive(spot.spotId, reg, now, calendar)
          else s.Depart(spot.spotId)
    {
      var logicallyOccupied := spot.state == Occupied;
      assert table.View().recs[spot.spotId] == spot.Record();
      if sensorOccupied != logicallyOccupied {
        if sensorOccupied {
          table.HandleCarArrival(spot, reg, now, calendar);
        } else {
          table.HandleCarDeparture(spot);
        }
      }
    }

    /** findBlockersforPlate, with the topology's blocking-id function passed in. */
    method FindBlockersForPlate(plate: string, blockingOf: (int, int) -> seq<string>) returns (blockers: seq<SpotInfo>)
      requires Valid()
      ensures var ids := Blockers(table.View(), plate, blockingOf);
        |blockers| == |ids| && forall i :: 0 <= i < |ids| ==> ids[i] in table.spots && blockers[i] == table.spots[ids[i]]
    {
      var ids := Blockers(table.View(), plate, blockingOf);
      assert forall i :: 0 <= i < |ids| ==> ids[i] in table.View().recs;
      blockers := seq(|ids|, i requires 0 <= i < |ids| && ids[i] in table.spots reads table => table.spots[ids[i]]);
    }
  }
}
