# CampusPark parking allocator — a verified Dafny model

CampusPark admits cars at a gate and assigns each one a parking spot. The lot has
stack lanes: a car in lane 2 or 3 blocks two spots of lane 1 or 4. Sensors report
whether a car stands on a spot. The allocator keeps a logical state for every spot
(free, reserved or occupied) and reconciles it with those sensor readings. It also
handles cars that park on the wrong spot and cars it does not know.

The model covers the allocator core of `ParkingAccessService`:

- `topology.dfy` (module `Topology`) covers `ParkingTopology`: which lanes are stack
  lanes, which lane each one blocks, which spot ids a spot blocks, and the spot-id
  format `L<lane>-P<pos>`. The id is parsed back into lane and position, with a
  round-trip proof.
- `spots.dfy` (module `Spots`) covers `SpotInfo`. It is a class whose `ReserveFor`,
  `OccupyBy` and `SetFree` methods update its fields in place. Each method is proved
  against a value-level `SpotRecord` function and keeps the class invariant: an
  arrival time exists exactly when the spot is occupied, and a departure estimate
  only then. `spotId` is a `const`, so it never changes after construction.
  `SetFree` always ends in `FreeRecord`, whatever the state before, so freeing twice
  is the same as freeing once.
- `spot_table.dfy` (module `SpotTable`) covers the registry that both allocators
  keep: a map from spot id to `SpotInfo`, read in a fixed iteration order. It also
  holds the helpers both allocator classes share: `computeIfAbsent`,
  `findPendingUser`, `freeReservationForUser`, `handleCarArrival` and
  `handleCarDeparture`. The class `Table` mutates the `SpotInfo` objects. Its methods
  are proved against the value `Snapshot` (order and records).
- `service_allocator.dfy` (module `ServiceAllocator`) covers the scoring allocator
  in `service/SpotAllocator.java`:
  - the long-term classification;
  - the backfill rule for stack lanes;
  - the score, and selection of the first spot of least score;
  - reconciling a sensor reading only when it disagrees with the logical state;
  - `findBlockersforPlate` and `getFreeSpotCount`.
- `logic_allocator.dfy` (module `LogicAllocator`) covers the earlier allocator in
  `logic/SpotAllocator.java`:
  - first-free reservation;
  - applying every reading, so that a free reading frees any spot;
  - the state-change listener: the messages it receives, and when a change is
    announced.
- `spot_update_event.dfy` (module `SpotUpdate`) covers `SpotUpdateEvent`:
  - `of(topic, status)`, which follows `String.split("/")` exactly, including the
    removal of trailing empty strings and the failure on a topic of slashes only;
  - `isOccupied`, which follows the per-character rule of `String.equalsIgnoreCase`.

  The event is a datatype, so its getters are its fields and return the
  constructor's arguments.
- `wrappers.dfy` holds `Option` and `Result`.

The clock, the calendar and the user database are parameters. Instants are integer
seconds. The calendar is a function from a user profile to an optional end time. The
user database is a `UserRegistry` value: a map from plate to profile, plus the
profile used for unknown cars.

Three behaviours of the code are worth stating outright:

- A free spot is announced with plate `"UNKNOWN"`, because `getAssignedPlate`
  returns that string when no profile is attached (`LogicAllocator.MessageOfValidRecord`).
- The scoring allocator ignores a free reading on a reserved spot
  (`ServiceAllocator.SensorUpdateAgreeing`); the earlier allocator frees it
  (`LogicAllocator.SensorUpdateReadings`).
- A car on a free spot releases every reservation of the pending plate, not just one
  (`SpotTable.ArriveOnFreeWithPending`).

## Model

Source paths are relative to the repository root.

The helpers `Topology.IntToString`, `ServiceAllocator.TruncDiv`, `SpotUpdate.UpperChar` and `SpotUpdate.LowerChar` have no row of their own. Each is a single expression whose behaviour is stated by the members that use it: `ParseCreateSpotId` and `CreateSpotIdInjective`, `DurationHours`, and `CharEqualsIgnoreCase` and `IsOccupiedIff`.

| member | source | states |
|---|---|---|
| Topology.IsStackLane | ParkingAccessService/src/main/java/de/campuspark/logic/ParkingTopology.java:12-14 | lanes 2 and 3 are the stack lanes; `BlockedLane` shows they are exactly the lanes that block another |
| Topology.BlockedLane | ParkingAccessService/src/main/java/de/campuspark/logic/ParkingTopology.java:12-24 | a lane blocks another lane exactly when it is a stack lane (2 or 3); a blocked lane is never itself a stack lane and is non-negative |
| Topology.BlockedSpotIds | ParkingAccessService/src/main/java/de/campuspark/logic/ParkingTopology.java:29-40 | no blocked ids for a lane that blocks nothing, exactly two for a stack lane |
| Topology.BlockedSpotIdsInOrder | ParkingAccessService/src/main/java/de/campuspark/logic/ParkingTopology.java:36-37 | read back, the two blocked ids are position 2*pos and then 2*pos+1 of the blocked lane |
| Topology.BlockedSpotIdsExactly | ParkingAccessService/src/main/java/de/campuspark/logic/ParkingTopology.java:29-45 | id L{l}-P{q} is blocked by (lane, pos) iff lane is a stack lane, l is the lane it blocks and q / 2 == pos |
| Topology.BlockedSpotIdsDisjoint | ParkingAccessService/src/main/java/de/campuspark/logic/ParkingTopology.java:36-37 | distinct positions of one lane block disjoint pairs, and the two ids of a pair differ |
| Topology.NatToString | ParkingAccessService/src/main/java/de/campuspark/logic/ParkingTopology.java:44 | Java's decimal rendering of a non-negative number in the id is a non-empty string of digits |
| Topology.ParseNatToString | ParkingAccessService/src/main/java/de/campuspark/logic/ParkingTopology.java:44 | reading the decimal rendering back gives the number |
| Topology.CreateSpotId | ParkingAccessService/src/main/java/de/campuspark/logic/ParkingTopology.java:43-45 | the id "L" + lane + "-P" + pos, with Java's decimal rendering and a minus sign for negative numbers; `ParseCreateSpotId` reads it back |
| Topology.ParseSpotId | ParkingAccessService/src/main/java/de/campuspark/service/SpotAllocator.java:225-226 | the lane and position behind `getLane`/`getPos`, read from an id L<digits>-P<digits>; any other text is malformed; on non-negative pairs it inverts `CreateSpotId` (`ParseCreateSpotId`) |
| Topology.LanePos | ParkingAccessService/src/main/java/de/campuspark/service/SpotAllocator.java:225-226 | `getLane`/`getPos` of a spot: never negative, and (0, 0) for a malformed id |
| Topology.LanePosOfCreateSpotId | ParkingAccessService/src/main/java/de/campuspark/service/SpotAllocator.java:204 | the lane and position of the spot created as (lane, pos) are lane and pos, so the spot behind is looked up where it was created |
| Topology.ParseCreateSpotId | ParkingAccessService/src/main/java/de/campuspark/logic/ParkingTopology.java:43-45 | parsing "L" + lane + "-P" + pos recovers (lane, pos) for non-negative lane and pos |
| Topology.CreateSpotIdInjective | ParkingAccessService/src/main/java/de/campuspark/logic/ParkingTopology.java:43-45 | different non-negative (lane, pos) pairs get different ids |
| Spots.StateName | ParkingAccessService/src/main/java/de/campuspark/logic/SpotInfo.java:9 | the enum constant's name as `toString` gives it: free, reserved, occupied |
| Spots.FindByPlate | ParkingAccessService/src/main/java/de/campuspark/logic/UserRegistry.java:15-17 | a profile exactly for a non-null registered plate; in a consistent registry it carries that plate |
| Spots.OccupantOf | ParkingAccessService/src/main/java/de/campuspark/logic/SpotInfo.java:32-33 | the dummy profile for "UNKNOWN"; otherwise a profile exactly when the plate is registered, and then one carrying that plate |
| Spots.SpotRecord.AssignedPlate | ParkingAccessService/src/main/java/de/campuspark/logic/SpotInfo.java:56-61 | the user's plate when there is a user with a plate; "UNKNOWN" exactly when there is no user, no plate, or the plate is "UNKNOWN" |
| Spots.ReserveRecord | ParkingAccessService/src/main/java/de/campuspark/logic/SpotInfo.java:23-28 | a reservation is reserved, has no arrival or departure time, and keeps the invariant |
| Spots.OccupyRecord | ParkingAccessService/src/main/java/de/campuspark/logic/SpotInfo.java:30-38 | occupying sets the state to occupied and the arrival to now; it attaches the dummy profile for "UNKNOWN" and the registered profile otherwise; without a profile the departure estimate is kept; the invariant holds |
| Spots.OccupyReportsPlate | ParkingAccessService/src/main/java/de/campuspark/logic/SpotInfo.java:30-33 | in a consistent registry an occupied spot reports the plate it was occupied by, or "UNKNOWN" when that plate is not registered |
| Spots.ReserveReportsPlate | ParkingAccessService/src/main/java/de/campuspark/logic/SpotInfo.java:23-24 | a reserved spot reports the reserving plate when it is registered, "UNKNOWN" otherwise |
| Spots.SpotInfo.constructor | ParkingAccessService/src/main/java/de/campuspark/logic/SpotInfo.java:18-21 | a new spot keeps its id and is free, with no user and no times |
| Spots.SpotInfo.ReserveFor | ParkingAccessService/src/main/java/de/campuspark/logic/SpotInfo.java:23-28 | the fields become the reservation record; the invariant is kept |
| Spots.SpotInfo.OccupyBy | ParkingAccessService/src/main/java/de/campuspark/logic/SpotInfo.java:30-38 | the fields become the occupation record built from the previous fields; the invariant is kept |
| Spots.SpotInfo.GetAssignedPlate | ParkingAccessService/src/main/java/de/campuspark/logic/SpotInfo.java:56-61 | a free spot reports "UNKNOWN"; a spot whose profile has a plate reports that plate |
| Spots.SpotInfo.SetFree | ParkingAccessService/src/main/java/de/campuspark/logic/SpotInfo.java:40-45 | from any state the fields become the free record (hence idempotent); the invariant is kept |
| SpotTable.Snapshot.Discover | ParkingAccessService/src/main/java/de/campuspark/service/SpotAllocator.java:88-93 | a known id leaves the registry unchanged; an unknown id is appended as a free spot; well-formedness is kept |
| SpotTable.Snapshot.PendingUser | ParkingAccessService/src/main/java/de/campuspark/service/SpotAllocator.java:169-175 | no plate exactly when no spot is reserved; otherwise the plate reported by the first reserved spot in iteration order (no earlier spot is reserved) |
| SpotTable.Snapshot.ReleaseFor | ParkingAccessService/src/main/java/de/campuspark/service/SpotAllocator.java:181-188 | afterwards no spot is reserved for the plate: exactly the spots reserved and reporting it become free, every other spot keeps its record; ids, order and well-formedness are kept |
| SpotTable.Snapshot.Arrive | ParkingAccessService/src/main/java/de/campuspark/service/SpotAllocator.java:123-147 | an arrival keeps the ids and the order and keeps well-formedness |
| SpotTable.Snapshot.Depart | ParkingAccessService/src/main/java/de/campuspark/service/SpotAllocator.java:154-159 | a departure keeps well-formedness |
| SpotTable.ArriveOnReserved | ParkingAccessService/src/main/java/de/campuspark/service/SpotAllocator.java:125-127 | for any registry, a car on its reserved spot occupies it with arrival now, and no other spot changes; in a consistent registry, when the reserved plate is registered or "UNKNOWN", the spot keeps reporting the same plate |
| SpotTable.ArriveOnFreeWithPending | ParkingAccessService/src/main/java/de/campuspark/service/SpotAllocator.java:132-140 | a car on a free spot while a spot is reserved is taken for the first pending plate; every spot reserved for that plate is freed, the car's spot becomes occupied, nothing else changes |
| SpotTable.ArriveOnFreeUnknown | ParkingAccessService/src/main/java/de/campuspark/service/SpotAllocator.java:141-145 | a car on a free spot while nothing is reserved occupies it as the unknown vehicle, reporting "UNKNOWN"; nothing else changes |
| SpotTable.FirstWhere | ParkingAccessService/src/main/java/de/campuspark/service/SpotAllocator.java:169-175 | the first match in iteration order: it matches and no earlier entry does |
| SpotTable.Table.constructor | ParkingAccessService/src/main/java/de/campuspark/service/SpotAllocator.java:28 | the registry starts empty |
| SpotTable.Table.GetOrCreate | ParkingAccessService/src/main/java/de/campuspark/service/SpotAllocator.java:88-93 | the registry becomes Discover(id) of the old one; the spot returned is the one under id, a fresh one when id was new |
| SpotTable.Table.Insert | ParkingAccessService/src/main/java/de/campuspark/service/SpotAllocator.java:88-92 | the new id is appended to the iteration order with a free record and the given spot object; the invariant is kept |
| SpotTable.Table.FreeReservationForUser | ParkingAccessService/src/main/java/de/campuspark/service/SpotAllocator.java:181-188 | the loop leaves the registry equal to ReleaseFor(plate) of the old one |
| SpotTable.Table.ReleaseAt | ParkingAccessService/src/main/java/de/campuspark/service/SpotAllocator.java:183-187 | one step frees the spot at that position if it is reserved for the plate and changes nothing else |
| SpotTable.Table.OccupySpot | ParkingAccessService/src/main/java/de/campuspark/service/SpotAllocator.java:127-144 | `spot.occupyBy(plate)` seen from the registry: only that spot changes, to OccupyRecord of its old record; the invariant is kept |
| SpotTable.Table.ReserveSpot | ParkingAccessService/src/main/java/de/campuspark/service/SpotAllocator.java:64 | `spot.reserveFor(plate)` seen from the registry: only that spot changes, to the reservation record; the invariant is kept |
| SpotTable.Table.HandleCarArrival | ParkingAccessService/src/main/java/de/campuspark/service/SpotAllocator.java:123-147 | the registry becomes Arrive(id) of the old one |
| SpotTable.Table.ReleaseAndOccupy | ParkingAccessService/src/main/java/de/campuspark/service/SpotAllocator.java:139-140 | the plate's reservations are released first, then the spot is occupied under that plate from its record after the release; the invariant is kept |
| SpotTable.Table.ArriveOnFree | ParkingAccessService/src/main/java/de/campuspark/service/SpotAllocator.java:129-145 | a car on a free spot makes the registry Arrive(id) of the old one |
| SpotTable.ArriveOnFreeSteps | ParkingAccessService/src/main/java/de/campuspark/service/SpotAllocator.java:129-145 | proof step for `Table.ArriveOnFree`, not a separate promise of the code: Arrive on a free spot unfolded into its two branches, release-then-occupy for the first pending plate or occupy as "UNKNOWN" |
| SpotTable.ReleaseForPointwise | ParkingAccessService/src/main/java/de/campuspark/service/SpotAllocator.java:181-188 | a registry with the same ids and order that frees exactly the spots reserved for the plate is ReleaseFor(plate) |
| SpotTable.Table.HandleCarDeparture | ParkingAccessService/src/main/java/de/campuspark/service/SpotAllocator.java:154-159 | the registry becomes Depart(id) of the old one |
| ServiceAllocator.DurationHours | ParkingAccessService/src/main/java/de/campuspark/service/SpotAllocator.java:52 | 1 without an estimate; otherwise the whole hours from now to the end, truncated toward zero on both sides of now |
| ServiceAllocator.IsLongTerm | ParkingAccessService/src/main/java/de/campuspark/service/SpotAllocator.java:55 | more than 4 whole hours; `LongTermIff` turns this into seconds |
| ServiceAllocator.LongTermIff | ParkingAccessService/src/main/java/de/campuspark/service/SpotAllocator.java:51-55 | long-term exactly when an end time exists and lies at least 5 whole hours ahead; no end time counts as 1 hour, so short-term |
| ServiceAllocator.ObeysBackfill | ParkingAccessService/src/main/java/de/campuspark/service/SpotAllocator.java:197-212 | a spot off the stack lanes always obeys; a stack-lane spot obeys unless the spot at pos + 1 of its lane exists and is free (`ReserveNeverTraps`) |
| ServiceAllocator.CountFreeIds | ParkingAccessService/src/main/java/de/campuspark/service/SpotAllocator.java:246-250 | the number of listed ids naming an existing free spot, at most one per entry |
| ServiceAllocator.CountFreeIdsIsCardinality | ParkingAccessService/src/main/java/de/campuspark/service/SpotAllocator.java:246-250 | over distinct ids the counted free spots are the number of distinct existing free spots named |
| ServiceAllocator.Score | ParkingAccessService/src/main/java/de/campuspark/service/SpotAllocator.java:223-257 | calculateScore for a lane and position; `ScoreBreakdown` states it term by term |
| ServiceAllocator.ScoreOf | ParkingAccessService/src/main/java/de/campuspark/service/SpotAllocator.java:223-226 | the score of a spot at the lane and position of its id |
| ServiceAllocator.ScoreBreakdown | ParkingAccessService/src/main/java/de/campuspark/service/SpotAllocator.java:223-257 | score = 10*pos, for long-term also -25*pos and +1000 on a blocking lane, plus 1000 per existing free blocked spot (at most two, none off stack lanes) |
| ServiceAllocator.MinFirst | ParkingAccessService/src/main/java/de/campuspark/service/SpotAllocator.java:57-62 | the index found is a candidate of least cost, and every earlier candidate costs strictly more; it is past the end exactly when there is no candidate |
| ServiceAllocator.SelectFrom | ParkingAccessService/src/main/java/de/campuspark/service/SpotAllocator.java:57-62 | nothing exactly when no spot in the order is eligible; otherwise an eligible spot of least score, every earlier eligible spot scoring strictly more |
| ServiceAllocator.ReserveScored | ParkingAccessService/src/main/java/de/campuspark/service/SpotAllocator.java:57-67 | the chosen id and the new registry; `ReserveScoredNone` and `ReserveScoredSome` state both outcomes |
| ServiceAllocator.ReserveScoredNone | ParkingAccessService/src/main/java/de/campuspark/service/SpotAllocator.java:57-67 | nothing is chosen exactly when no spot is free and obeys the backfill rule, and then nothing changes |
| ServiceAllocator.ReserveScoredSome | ParkingAccessService/src/main/java/de/campuspark/service/SpotAllocator.java:57-67 | the chosen spot is free, obeys backfill and has minimal score among such spots; it alone becomes reserved for the plate |
| ServiceAllocator.ReserveNeverTraps | ParkingAccessService/src/main/java/de/campuspark/service/SpotAllocator.java:197-212 | a chosen stack-lane spot never has a free spot at pos+1 behind it |
| ServiceAllocator.SensorUpdate | ParkingAccessService/src/main/java/de/campuspark/service/SpotAllocator.java:87-114 | reconciling a reading keeps the registry well-formed |
| ServiceAllocator.SensorUpdateAgreeing | ParkingAccessService/src/main/java/de/campuspark/service/SpotAllocator.java:88-111 | an unknown id is first appended as free; a reading that matches "occupied or not" changes nothing, so a reserved spot reported free stays reserved |
| ServiceAllocator.SensorUpdateDeparture | ParkingAccessService/src/main/java/de/campuspark/service/SpotAllocator.java:154-158 | a free reading on an occupied spot frees it with the plate cleared to "UNKNOWN"; nothing else changes |
| ServiceAllocator.NonFreeIds | ParkingAccessService/src/main/java/de/campuspark/service/SpotAllocator.java:275-279 | keeps exactly the listed ids that exist and are not free, never more entries than listed |
| ServiceAllocator.NonFreeIdsAppend | ParkingAccessService/src/main/java/de/campuspark/service/SpotAllocator.java:275-279 | the filter distributes over concatenation, so it keeps the list order and every repetition |
| ServiceAllocator.Blockers | ParkingAccessService/src/main/java/de/campuspark/service/SpotAllocator.java:259-280 | every blocker exists and is not free; with no non-free spot holding the plate the result is empty |
| ServiceAllocator.HoldsPlate | ParkingAccessService/src/main/java/de/campuspark/service/SpotAllocator.java:262-263 | the test for the plate's own spot: not free and reporting the plate |
| ServiceAllocator.BlockersOfHolder | ParkingAccessService/src/main/java/de/campuspark/service/SpotAllocator.java:261-279 | when position i of the iteration order is the first spot holding the plate, the result is the filtered list of that spot's blocking ids, in their order |
| ServiceAllocator.SpotAllocator.constructor | ParkingAccessService/src/main/java/de/campuspark/service/SpotAllocator.java:28 | the allocator starts with an empty registry |
| ServiceAllocator.SpotAllocator.GetFreeSpotCount | ParkingAccessService/src/main/java/de/campuspark/service/SpotAllocator.java:34-37 | a decimal string whose value is the number of free spots |
| ServiceAllocator.SpotAllocator.ReserveSpotForUser | ParkingAccessService/src/main/java/de/campuspark/service/SpotAllocator.java:50-76 | the registry becomes the ReserveScored result for the user's plate and calendar classification; null exactly when nothing was chosen, else the chosen spot's object |
| ServiceAllocator.SpotAllocator.HandleSensorUpdate | ParkingAccessService/src/main/java/de/campuspark/service/SpotAllocator.java:87-114 | the registry becomes SensorUpdate of the old one; the spot returned is the one under the id; a spot created for a new id is fresh and is the only spot added |
| ServiceAllocator.SpotAllocator.Reconcile | ParkingAccessService/src/main/java/de/campuspark/service/SpotAllocator.java:95-108 | a reading that agrees with the spot's logical occupancy changes nothing; otherwise the registry becomes Arrive or Depart of the old one |
| ServiceAllocator.SpotAllocator.FindBlockersForPlate | ParkingAccessService/src/main/java/de/campuspark/service/SpotAllocator.java:259-280 | the objects of the Blockers ids, in list order |
| LogicAllocator.MessageFor | ParkingAccessService/src/main/java/de/campuspark/logic/SpotAllocator.java:26-32 | the message built from the id, the state's name, the assigned plate and the two instants; `MessageOfValidRecord` states its fields |
| LogicAllocator.MessageOfValidRecord | ParkingAccessService/src/main/java/de/campuspark/logic/SpotAllocator.java:24-35 | the message names the spot and its state; a free spot is announced with plate "UNKNOWN" and no times; arrival is present exactly when occupied |
| LogicAllocator.ReserveFirstFree | ParkingAccessService/src/main/java/de/campuspark/logic/SpotAllocator.java:40-53 | the first free spot in iteration order reserved for the plate, or nothing; `ReserveFirstFreeOutcome` states both outcomes |
| LogicAllocator.ReserveFirstFreeOutcome | ParkingAccessService/src/main/java/de/campuspark/logic/SpotAllocator.java:40-53 | nothing chosen (and nothing changed) exactly when no spot is free; otherwise the first free spot in iteration order alone becomes reserved for the plate |
| LogicAllocator.SensorUpdate | ParkingAccessService/src/main/java/de/campuspark/logic/SpotAllocator.java:58-74 | applying a reading keeps the registry well-formed |
| LogicAllocator.SensorUpdateReadings | ParkingAccessService/src/main/java/de/campuspark/logic/SpotAllocator.java:84-122 | a free reading frees the spot whatever its state, reserved included; an occupied reading on an occupied spot changes nothing |
| LogicAllocator.Changed | ParkingAccessService/src/main/java/de/campuspark/logic/SpotAllocator.java:77-78 | the change test: the state or the assigned plate differs (the plate is never null) |
| LogicAllocator.ChangeMessages | ParkingAccessService/src/main/java/de/campuspark/logic/SpotAllocator.java:77-81 | one message with the new record when the spot changed, none otherwise |
| LogicAllocator.ChangeMessagesOnChange | ParkingAccessService/src/main/java/de/campuspark/logic/SpotAllocator.java:77-81 | at most one message, present exactly when the spot changed, naming the spot with its new state and plate |
| LogicAllocator.SensorMessages | ParkingAccessService/src/main/java/de/campuspark/logic/SpotAllocator.java:58-82 | the discovery message of a new spot followed by the change message; `SensorMessagesOnlyOnChange` states what they contain |
| LogicAllocator.SensorMessagesOnlyOnChange | ParkingAccessService/src/main/java/de/campuspark/logic/SpotAllocator.java:58-82 | only the reported spot is announced, never the spots released on the way; a known spot is announced exactly when its state or plate changed |
| LogicAllocator.SpotAllocator.constructor | ParkingAccessService/src/main/java/de/campuspark/logic/SpotAllocator.java:12-16 | an empty registry, no listener, nothing published |
| LogicAllocator.SpotAllocator.SetOnStateChange | ParkingAccessService/src/main/java/de/campuspark/logic/SpotAllocator.java:19-21 | the listener is registered or removed |
| LogicAllocator.SpotAllocator.NotifyChange | ParkingAccessService/src/main/java/de/campuspark/logic/SpotAllocator.java:24-35 | with a listener, exactly the spot's current message is added; without one nothing is; the registry is untouched |
| LogicAllocator.SpotAllocator.ReserveSpotForUser | ParkingAccessService/src/main/java/de/campuspark/logic/SpotAllocator.java:40-53 | the registry and the returned id are those of ReserveFirstFree; the reserved spot's message is published when a listener is set |
| LogicAllocator.SpotAllocator.DiscoverSpot | ParkingAccessService/src/main/java/de/campuspark/logic/SpotAllocator.java:59-64 | the registry becomes Discover(id) of the old one; a new spot is announced as free when a listener is set, a known one is not announced |
| LogicAllocator.SpotAllocator.ApplyReading | ParkingAccessService/src/main/java/de/campuspark/logic/SpotAllocator.java:66-81 | the registry becomes Arrive or Depart of the old one; the change message is published if state or plate changed |
| LogicAllocator.SpotAllocator.NotifyIfChanged | ParkingAccessService/src/main/java/de/campuspark/logic/SpotAllocator.java:76-81 | a message is published exactly when state or plate differ from before |
| LogicAllocator.SpotAllocator.HandleSensorUpdate | ParkingAccessService/src/main/java/de/campuspark/logic/SpotAllocator.java:58-82 | the registry becomes SensorUpdate of the old one; published are the discovery message for a new id, then the change message; a spot created for a new id is fresh and is the only spot added |
| SpotUpdate.Segments | ParkingAccessService/src/main/java/de/campuspark/model/SpotUpdateEvent.java:48 | every piece between separators, empty ones included, at least one; `JoinSegments` proves the pieces hold no "/" and join back to the text |
| SpotUpdate.Split | ParkingAccessService/src/main/java/de/campuspark/model/SpotUpdateEvent.java:48 | `String.split("/")`: the whole text when there is no separator, else the pieces without trailing empty ones (`DropTrailingEmpty`) |
| SpotUpdate.Of | ParkingAccessService/src/main/java/de/campuspark/model/SpotUpdateEvent.java:46-57 | the last part of the split topic as the id, or the out-of-bounds failure when no part is left; `OfOutcome` states when each happens |
| SpotUpdate.JoinSegments | ParkingAccessService/src/main/java/de/campuspark/model/SpotUpdateEvent.java:48 | no piece of a split holds "/", and joining the pieces with "/" gives the topic back |
| SpotUpdate.SegmentsWithoutSeparator | ParkingAccessService/src/main/java/de/campuspark/model/SpotUpdateEvent.java:48 | a text without "/" is a single piece |
| SpotUpdate.DropTrailingEmpty | ParkingAccessService/src/main/java/de/campuspark/model/SpotUpdateEvent.java:48 | split's result is a prefix of the pieces, whose last piece is non-empty, and only empty pieces were dropped |
| SpotUpdate.OfWithoutSeparator | ParkingAccessService/src/main/java/de/campuspark/model/SpotUpdateEvent.java:46-57 | a topic without "/" is itself the spot id |
| SpotUpdate.OfLastSegment | ParkingAccessService/src/main/java/de/campuspark/model/SpotUpdateEvent.java:46-57 | for "prefix/id" with a non-empty id free of "/", the id is the text after the last "/"; the status is kept verbatim and the timestamp is the clock reading |
| SpotUpdate.OfOutcome | ParkingAccessService/src/main/java/de/campuspark/model/SpotUpdateEvent.java:46-57 | `of` fails exactly on a non-empty topic made only of "/"; otherwise the id holds no "/", the status is kept verbatim (even when neither "occupied" nor "free") and the timestamp is the clock reading |
| SpotUpdate.CharEqualsIgnoreCase | ParkingAccessService/src/main/java/de/campuspark/model/SpotUpdateEvent.java:74 | two characters match when equal, equal in upper case, or equal after upper- then lower-casing |
| SpotUpdate.EqualsIgnoreCase | ParkingAccessService/src/main/java/de/campuspark/model/SpotUpdateEvent.java:74 | same length and a character-by-character match |
| SpotUpdate.IsOccupied | ParkingAccessService/src/main/java/de/campuspark/model/SpotUpdateEvent.java:73-75 | the status equals "occupied" up to case; `IsOccupiedIff` spells this out letter by letter |
| SpotUpdate.IsOccupiedIff | ParkingAccessService/src/main/java/de/campuspark/model/SpotUpdateEvent.java:73-75 | occupied exactly when the status is "occupied" letter by letter in either case (an i also as dotless i or dotted capital I) |
| SpotUpdate.IsOccupiedOnPayloads | ParkingAccessService/src/main/java/de/campuspark/model/SpotUpdateEvent.java:73-75 | "free" is not occupied; "occupied", "OCCUPIED" and "Occupied" are |

## Left out

- Transport and logging are not modelled: MQTT, `MqttLogger`, the `System.out`/`System.err` messages (including the status warning in `of`) and `printStatus`.
- Concurrency is not modelled. The `ConcurrentHashMap` gives no iteration order, so the model fixes one: insertion order, kept in `order`. Every "first" (`findFirst`, ties in `min`) refers to that order.
- The two allocators are separate classes, each with its own registry, as the two static maps are. The static fields become instance fields.
- The clock is the parameter `now`, and instants are whole seconds. `Duration.toHours` truncation is modelled; sub-second precision is not.
- `CalendarService.getEstimatedEndTime` (file and network I/O) is the `calendar` parameter.
- The user database and `UserRegistry.findByPlate`/`DummyUser` are the `UserRegistry` value. `UserRegistry.java` has no static `findByPlate` or `DummyUser`, which `SpotInfo` calls.
- Spots.SpotInfo.OccupyBy: the guard before the departure estimate is modelled as always true when a profile is attached. For a non-null course it is always true. For a null course Java throws a `NullPointerException`, and the model does not show that exception. `UserProfile.java` has no course field.
- Spots.OccupantOf: `plate == "UNKNOWN"` in `occupyBy` compares references; the model compares strings and so treats the two as the same. They differ at two call sites, each of which passes a profile's own plate string to `occupyBy`. The first is the reserved branch of `handleCarArrival`, which passes `getAssignedPlate()` (service/SpotAllocator.java:126-127, logic/SpotAllocator.java:87-88). The second is the pending-plate branch, which passes the plate that `findPendingUser` took from `getAssignedPlate()` (service/SpotAllocator.java:172 and 140, logic/SpotAllocator.java:134 and 105). At either site, a registered profile whose plate text is "UNKNOWN" fails Java's reference test and is looked up with `findByPlate`, while the model attaches the dummy profile.
- Spots.StateName: the enum in `SpotInfo.java` declares `free`, `reserved`, `occupied`, so `toString` and the model publish lower-case names. The earlier allocator tests the constants `FREE`, `RESERVED`, `OCCUPIED`, which that enum does not declare, and `SpotStateMessage` documents upper-case names. The model takes those constants to be the same three states.
- Spots.SpotInfo.constructor: `SpotInfo.java` has no lane or position, but the scoring allocator calls `getLane()`/`getPos()`. The model derives them from the id, and a malformed id gives lane 0, position 0.
- ServiceAllocator.SpotAllocator.FindBlockersForPlate: `ParkingTopology.getBlockingSpots` does not exist in `ParkingTopology.java`, so the blocking-id function is a parameter.
- ServiceAllocator.Score: the `int` products `pos * 10`, `pos * 25` and `pos * 2` may overflow in Java; the model uses unbounded integers. The `double` score is an integer, since every term is integral.
- LogicAllocator.SpotAllocator.NotifyChange: the listener is a flag plus the list of messages it received. What the listener does with a message (the MQTT publish) is not modelled. Instants in `SpotStateMessage` are not formatted as local date-time strings.
- SpotUpdate.CharEqualsIgnoreCase: Java's full Unicode case mapping is reduced to ASCII plus the dotless i and the dotted capital I. This is exact for comparisons with "occupied".
- The Jackson deserialisation annotations on the `SpotUpdateEvent` constructor are not modelled; the constructor is the datatype constructor.
