# JAGCS communication core, modelled in Dafny

This project models three sequential parts of the JAGCS ground-control
station's MAVLink communication core and proves properties about them:

- **Mission transfer** (`mission_handler.cpp`). This is the
  count → per-item request → item → ack handshake of the MAVLink mission
  protocol. It includes the MAV_CMD ↔ item-kind translation and the
  kind-dependent mapping between a MISSION_ITEM payload and a mission item.
  Modules: `MissionItems` (codec) and `MissionHandler` (handshake).
- **Communication mediator** (`communicator_worker.cpp`). This is the
  registry of links by id and the list of communicators. The module keeps
  every communicator wired to every link, runs the once-a-second statistics
  tick with "take" semantics, and forwards telemetry after a reverse lookup
  of the link id. Modules: `OrderedMap` (the `QMap` the registry lives in)
  and `CommunicatorWorker`.
- **System-status decoder** (`system_status_handler.cpp`). It turns the
  SYS_STATUS sensor bitmasks into availability flags and builds the power
  system reading. Module: `SystemStatus`.

`Mavlink` holds the MAVLink constants and the decoded message records.
`Wrappers` holds `Option`.

Every operation is a pure function that returns the new state together with
the messages or signals it emits, in the order the source emits them. Calls
the source makes into code that is not part of this model are parameters:

- the link factory's `create()` result and its `update`;
- the transport's answer to `connectLink()`;
- the mission-item factory;
- `decodeVoltage` and `decodeCurrent`;
- the current time.

`Mission` and `MissionItem` are known only from their declarations
(`mission.h`, `mission_item.h`). A mission is modelled as a count, changed
only by `setCount`, and a map from sequence number to item, written only by
`setMissionItem`. An item's `sequence()` is taken to be its index in the
mission. The subclasses the handler casts to are not declared there, so
their attributes are assumed from the casts:

- Continue and the position items carry an altitude.
- Home, Waypoint, Takeoff, Landing and Loiter carry a position.
- Return and unknown items carry neither.

## Behaviour kept as the code has it

The model follows the code, including where the code departs from the
MAVLink mission protocol or from its own evident intent. Each case below is
proved as a lemma:

- After each received item the progress counter is *set* to the mission's
  count. It is not incremented. Once a count message has arrived, the count
  equals the total. As long as no count message from another vehicle and no
  upload comes in between, every received item therefore draws an accepted
  ack, including the first one and repeats (`EveryItemIsAcked`,
  `AckAfterFirstItem`). The MAVLink mission protocol has the receiver send
  one MISSION_ACK, after the last item.
- The progress and total counters are one pair shared by all vehicles. A
  count message from a second vehicle, or an upload to one, in the middle of
  a download replaces the total. From then on the first vehicle's items draw
  no ack (`CountFromOtherVehicleSilencesAcks`,
  `UploadToOtherVehicleSilencesAcks`).
- `decodeCommand` takes an 8-bit sequence number, and the caller passes the
  16-bit wire value. So a waypoint at sequence 256 decodes as Home
  (`WaypointAtSequence256IsHome`).
- Loiter is sent as LOITER_TO_ALT, which the decoder does not recognise. A
  Loiter item therefore comes back as an unknown item (`CommandRoundTrip`,
  `EncodeDecodeItem`).
- A Home item is sent as a WAYPOINT. If it is not at sequence 0, it comes
  back as a Waypoint. That Waypoint's acceptance radius is whatever the
  uninitialised `param2` held (`EncodeDecodeItem`).
- A negative climb is sent as 1, because the first test is on truthiness
  (`NegativeClimbEncodesAsOne`). On receipt, the climb of a Continue item is
  not read at all.
- The outgoing MISSION_ITEM is a stack struct that is never initialised. Its
  `current` field is never written. The model gives the struct's prior contents as a `scratch`
  argument. Every field the code does not write keeps its scratch value.
- `setLinkConnected` looks the id up with `QMap::operator[]`. For an unknown
  id this inserts a null entry, although the `if (link)` guard that follows
  shows the call is meant to leave an unknown id alone. From
  then on the id counts as registered but holds no link: `updateLink` never
  creates the link again, and the next statistics tick would dereference
  null (`UnknownIdLeavesNullEntry`).
- `addCommunicatorImpl` connects each telemetry signal to its slot twice.
  So each statistics or protocol signal from a communicator is forwarded
  twice (`DeliverStatistics`, `DeliverProtocol`).
- The reverse lookup returns 0 for "not found". So a link registered under
  id 0 is never forwarded (`LinkUnderZeroIsDropped`).

## Model

| member | source | states |
|---|---|---|
| `MissionItems.DecodeCommand` | sources/domain/communication/mavlink_communicator/mavlink_handlers/mission_handler.cpp:28-47 | the kind for each wire command, each as an if-and-only-if: WAYPOINT is Home exactly at sequence 0 and Waypoint above it; both loiter commands are Loiter; any other command is unknown |
| `MissionItems.EncodeCommand` | sources/domain/communication/mavlink_communicator/mavlink_handlers/mission_handler.cpp:49-68 | 0 exactly for unknown; WAYPOINT exactly for Home and Waypoint; LOITER_TO_ALT exactly for Loiter; TAKEOFF, LAND, CONTINUE_AND_CHANGE_ALT and RETURN_TO_LAUNCH exactly for Takeoff, Landing, Continue and Return; only unknown and Loiter leave the recognised set |
| `MissionItems.CommandRoundTrip` | sources/domain/communication/mavlink_communicator/mavlink_handlers/mission_handler.cpp:28-68 | decode after encode returns Takeoff, Continue, Return, Landing and unknown unchanged; Home or Waypoint by sequence number alone; Loiter as unknown |
| `MissionItems.WireCommandRoundTrip` | sources/domain/communication/mavlink_communicator/mavlink_handlers/mission_handler.cpp:28-68 | encode after decode returns every recognised command except the loiter pair, which becomes LOITER_TO_ALT; unrecognised commands become 0 |
| `MissionItems.WaypointAtSequence256IsHome` | sources/domain/communication/mavlink_communicator/mavlink_handlers/mission_handler.cpp:273 | the 16-bit sequence narrowed to 8 bits turns a waypoint at 256 into Home, while 255 stays a Waypoint |
| `MissionItems.ClimbParam` | sources/domain/communication/mavlink_communicator/mavlink_handlers/mission_handler.cpp:181-182 | every non-zero climb is sent as 1 and a zero climb as 0 |
| `MissionItems.NegativeClimbEncodesAsOne` | sources/domain/communication/mavlink_communicator/mavlink_handlers/mission_handler.cpp:181-182 | a negative climb is sent as 1, never as -1 |
| `MissionItems.ReadPosition` | sources/domain/communication/mavlink_communicator/mavlink_handlers/mission_handler.cpp:296-305 | a wire position of exactly (0, 0) becomes the unset sentinel; any other pair is copied |
| `MissionItems.ReadRelative` | sources/domain/communication/mavlink_communicator/mavlink_handlers/mission_handler.cpp:278-289 | GLOBAL_RELATIVE_ALT sets the relative flag, GLOBAL clears it, any other frame leaves it as it was |
| `MissionItems.WriteAltitude` | sources/domain/communication/mavlink_communicator/mavlink_handlers/mission_handler.cpp:173-175 | frame is GLOBAL_RELATIVE_ALT or GLOBAL by the relative flag, z is the altitude, nothing else changes |
| `MissionItems.EncodeItem` | sources/domain/communication/mavlink_communicator/mavlink_handlers/mission_handler.cpp:159-221 | sequence and command set; autocontinue is 1 iff the item is not the last; frame is relative iff the item's altitude is; Takeoff writes param1 and param4, Landing param4, Waypoint param2, Loiter param3, Continue param1; every field not written (current among them) keeps its prior value |
| `MissionItems.ReadAltitude` | sources/domain/communication/mavlink_communicator/mavlink_handlers/mission_handler.cpp:278-290 | the altitude is z; the relative flag follows the frame rule |
| `MissionItems.DecodeItem` | sources/domain/communication/mavlink_communicator/mavlink_handlers/mission_handler.cpp:272-332 | the current flag is the message's; the kind is the decoded command's; altitude, position and only the parameter matching the kind are read; param4 and the climb are ignored; everything else is the factory's item |
| `MissionItems.EncodeDecodeItem` | sources/domain/communication/mavlink_communicator/mavlink_handlers/mission_handler.cpp:165-330 | sending an item and reading it back keeps altitude, position up to the (0, 0) marker and the kind's parameter; loses the current flag, the azimuth and the climb; swaps Home and Waypoint by sequence number; turns Loiter into an unknown item |
| `MissionItems.ZeroPositionBecomesUnset` | sources/domain/communication/mavlink_communicator/mavlink_handlers/mission_handler.cpp:296-305 | a real waypoint at (0, 0) comes back with an unset position |
| `MissionHandler.RequestMission` | sources/domain/communication/mavlink_communicator/mavlink_handlers/mission_handler.cpp:102-116 | one request-list message to the vehicle, no state change |
| `MissionHandler.RequestItems` | sources/domain/communication/mavlink_communicator/mavlink_handlers/mission_handler.cpp:258-261 | exactly n item requests, the i-th for sequence i |
| `MissionHandler.ProcessMissionCount` | sources/domain/communication/mavlink_communicator/mavlink_handlers/mission_handler.cpp:246-262 | no mission means no change and nothing sent; otherwise current count 0, total and mission count n, other missions untouched, and exactly n requests for 0..n-1 in ascending order |
| `MissionHandler.SendMissionCount` | sources/domain/communication/mavlink_communicator/mavlink_handlers/mission_handler.cpp:133-150 | requires the vehicle's mission (no null check in the source); one count message with the count narrowed to 16 bits, which also becomes the total; current count 0 |
| `MissionHandler.SendMissionItem` | sources/domain/communication/mavlink_communicator/mavlink_handlers/mission_handler.cpp:152-229 | with no mission or an index at or past the count, nothing changes and nothing is sent; otherwise exactly one encoded item for that index and the current count goes up by exactly one |
| `MissionHandler.SendMissionAck` | sources/domain/communication/mavlink_communicator/mavlink_handlers/mission_handler.cpp:231-244 | one ACCEPTED ack, no state change |
| `MissionHandler.ProcessMissionItem` | sources/domain/communication/mavlink_communicator/mavlink_handlers/mission_handler.cpp:264-341 | no mission means no change; otherwise the decoded item (with the message's current flag) is stored at its sequence and nothing else is touched, the current count becomes the mission's count, and one ACCEPTED ack is sent iff that equals the total |
| `MissionHandler.ProcessMissionRequest` | sources/domain/communication/mavlink_communicator/mavlink_handlers/mission_handler.cpp:343-349 | a request is answered by `sendMissionItem` for the requested sequence |
| `MissionHandler.ProcessMissionAck` | sources/domain/communication/mavlink_communicator/mavlink_handlers/mission_handler.cpp:351-360 | nothing changes and nothing is sent, whatever the ack type |
| `MissionHandler.ProcessMessage` | sources/domain/communication/mavlink_communicator/mavlink_handlers/mission_handler.cpp:82-100 | count, item and request messages go to their handlers; every other message id, MISSION_ACK and MISSION_REQUEST_LIST included, changes nothing and sends nothing |
| `MissionHandler.RequestListIgnored` | sources/domain/communication/mavlink_communicator/mavlink_handlers/mission_handler.cpp:97-98 | a MISSION_REQUEST_LIST from a vehicle falls to the default branch: no state change, nothing sent |
| `MissionHandler.EveryItemIsAcked` | sources/domain/communication/mavlink_communicator/mavlink_handlers/mission_handler.cpp:332-340 | once the mission's count equals the total, k received items draw k ACCEPTED acks and the counter stays at the total |
| `MissionHandler.AckAfterFirstItem` | sources/domain/communication/mavlink_communicator/mavlink_handlers/mission_handler.cpp:254-340 | a count of 2 sends requests 0 then 1, and the first item received already draws the ack |
| `MissionHandler.CountFromOtherVehicleSilencesAcks` | sources/domain/communication/mavlink_communicator/mavlink_handlers/mission_handler.cpp:254-255 | a count message from a second vehicle during a download replaces the shared total, after which the first vehicle's items draw no ack |
| `MissionHandler.UploadToOtherVehicleSilencesAcks` | sources/domain/communication/mavlink_communicator/mavlink_handlers/mission_handler.cpp:142-144 | announcing an upload to a second vehicle during a download replaces the shared total, after which the first vehicle's items draw no ack |
| `MissionHandler.ServeRequestsCounts` | sources/domain/communication/mavlink_communicator/mavlink_handlers/mission_handler.cpp:152-228 | serving requests leaves the missions and the total alone, sends one item per in-range request, and raises the current count by exactly the number sent |
| `MissionHandler.ServeInRange` | sources/domain/communication/mavlink_communicator/mavlink_handlers/mission_handler.cpp:152-228 | in-range requests are answered in request order, each with the encoded item for its index |
| `MissionHandler.CompleteUpload` | sources/domain/communication/mavlink_communicator/mavlink_handlers/mission_handler.cpp:133-228 | count announced, then requests 0..n-1: every item is sent encoded, in order, and the current count ends equal to the total |
| `OrderedMap.Put` | core/sources/domain/communication/communicator_worker.cpp:142 | inserting into the registry adds the key, binds it to the value, and changes no other lookup; order is kept |
| `OrderedMap.Remove` | core/sources/domain/communication/communicator_worker.cpp:160 | taking an id out removes exactly that key and changes no other lookup; order is kept |
| `CommunicatorWorker.RemoveOne` | core/sources/domain/communication/communicator_worker.cpp:108 | removing a communicator cuts out its first occurrence and keeps the rest in order; nothing changes if it is absent; a duplicate-free list stays duplicate-free |
| `CommunicatorWorker.FirstIndex` | core/sources/domain/communication/communicator_worker.cpp:108 | the position found holds the communicator and no earlier position does |
| `CommunicatorWorker.AddCommunicator` | core/sources/domain/communication/communicator_worker.cpp:82-104 | a null or already registered communicator changes nothing; otherwise it is appended and wired to every link; the wiring invariant is preserved |
| `CommunicatorWorker.DeleteCommunicator` | core/sources/domain/communication/communicator_worker.cpp:106-118 | an unregistered communicator changes nothing; otherwise it is removed and unwired from every link; the wiring invariant is preserved |
| `CommunicatorWorker.UpdateLink` | core/sources/domain/communication/communicator_worker.cpp:120-154 | a known id only gets the factory's in-place update, which keeps the link's identity, with keys, wiring and events unchanged; a new id with a null factory result changes nothing; otherwise the created link is registered (connected as the transport answered, under autoconnect) and wired to every communicator, and one status event goes out iff autoconnect; the invariant is preserved |
| `CommunicatorWorker.RemoveLink` | core/sources/domain/communication/communicator_worker.cpp:156-168 | an unknown id changes nothing; otherwise exactly that id leaves the registry and is unwired from every communicator; the invariant is preserved |
| `CommunicatorWorker.SetLinkConnected` | core/sources/domain/communication/communicator_worker.cpp:170-174 | an unknown id gains a null entry; a registered link takes the requested state; wiring and live links are unchanged |
| `CommunicatorWorker.ForwardLinkSignal` | core/sources/domain/communication/communicator_worker.cpp:135-140 | a link's connected, received, sent and error signals are re-emitted under the link's id with their payload |
| `CommunicatorWorker.Drained` | core/sources/domain/communication/communicator_worker.cpp:185 | taking the counters leaves both at zero and the link otherwise unchanged |
| `CommunicatorWorker.Tick` | core/sources/domain/communication/communicator_worker.cpp:176-187 | one statistics event per registered id, in ascending id order, with the time and the pre-tick counters; afterwards every counter is zero; keys and wiring unchanged |
| `CommunicatorWorker.FirstHolding` | core/sources/domain/communication/communicator_worker.cpp:67 | the reverse lookup finds the first entry, in key order, holding the link, or reports that none does |
| `CommunicatorWorker.LinkIdOfIsLeastHolder` | core/sources/domain/communication/communicator_worker.cpp:67-68 | the reverse lookup is the least registered id whose entry holds the link, or 0 when none does |
| `CommunicatorWorker.SameHoldersSameId` | core/sources/domain/communication/communicator_worker.cpp:67 | registries that agree on which ids hold a link give the same reverse lookup for it |
| `CommunicatorWorker.ToDtoProtocol` | core/sources/domain/communication/communicator_worker.cpp:19-27 | MavLink1 and MavLink2 map to themselves and everything else to UnknownProtocol, each as an if-and-only-if |
| `CommunicatorWorker.OnMavLinkStatisticsChanged` | core/sources/domain/communication/communicator_worker.cpp:63-71 | forwarded under the looked-up id, dropped when the lookup gives 0 |
| `CommunicatorWorker.OnMavLinkProtocolChanged` | core/sources/domain/communication/communicator_worker.cpp:73-80 | forwarded under the looked-up id with the protocol translated, dropped when the lookup gives 0 |
| `CommunicatorWorker.DeliverStatistics` | core/sources/domain/communication/communicator_worker.cpp:88-94 | a registered communicator's statistics signal reaches listeners twice, because of the duplicated connect |
| `CommunicatorWorker.DeliverProtocol` | core/sources/domain/communication/communicator_worker.cpp:90-96 | a registered communicator's protocol signal reaches listeners twice, because of the duplicated connect |
| `CommunicatorWorker.Repeat` | core/sources/domain/communication/communicator_worker.cpp:88-96 | a slot connected n times runs n times |
| `CommunicatorWorker.RunKeepsWiring` | core/sources/domain/communication/communicator_worker.cpp:82-174 | after any sequence of add and delete communicator, update and remove link and set-connected requests, the wiring equals registered communicators x registered links |
| `CommunicatorWorker.AddCommunicatorIdempotent` | core/sources/domain/communication/communicator_worker.cpp:84 | adding the same communicator twice is the same as adding it once |
| `CommunicatorWorker.UnknownIdLeavesNullEntry` | core/sources/domain/communication/communicator_worker.cpp:170-174 | set-connected on an unknown id changes the state: the id is registered with no link, `updateLink` can no longer create it, and the tick's no-null requirement fails |
| `CommunicatorWorker.SecondTickReportsZero` | core/sources/domain/communication/communicator_worker.cpp:176-187 | the first tick reports the counters as they stood; a second tick with no traffic reports (0, 0) for every id |
| `CommunicatorWorker.LinkUnderZeroIsDropped` | core/sources/domain/communication/communicator_worker.cpp:63-80 | a link held only under id 0 never has its telemetry forwarded |
| `CommunicatorWorker.LinkUnderIdIsForwarded` | core/sources/domain/communication/communicator_worker.cpp:63-80 | a link held only under a non-zero id has its telemetry forwarded under that id |
| `CommunicatorWorker.UpdateKeepsLinkId` | core/sources/domain/communication/communicator_worker.cpp:124-128 | after the factory's update of a registered id, the reverse lookup finds the same id for every link as before |
| `SystemStatus.Decode` | sources/domain/communication/mavlink_communicator/mavlink_handlers/system_status_handler.cpp:30-75 | power from decoded voltage and current with remaining passed through; compass and GPS are present-and-enabled on their bit; INS needs both the accelerometer and gyro bits; only aerial vehicles get barometer, airspeed, AHRS and range finder, on their own bits |
| `SystemStatus.ProcessMessage` | sources/domain/communication/mavlink_communicator/mavlink_handlers/system_status_handler.cpp:20-78 | every message id other than SYS_STATUS, and every unknown vehicle id, changes nothing; otherwise only the addressed vehicle is updated |
| `SystemStatus.RequestListIgnored` | sources/domain/communication/mavlink_communicator/mavlink_handlers/system_status_handler.cpp:22 | a MISSION_REQUEST_LIST changes no vehicle |
| `SystemStatus.DecodeByBitPosition` | sources/domain/communication/mavlink_communicator/mavlink_handlers/system_status_handler.cpp:34-75 | each flag equals the conjunction of its MAV_SYS_STATUS_SENSOR bit positions in both masks |
| `SystemStatus.FlagsDependOnOwnBits` | sources/domain/communication/mavlink_communicator/mavlink_handlers/system_status_handler.cpp:34-75 | two statuses that agree on a sensor's bits give the same flag for it, whatever else differs |
| `SystemStatus.HealthIgnored` | sources/domain/communication/mavlink_communicator/mavlink_handlers/system_status_handler.cpp:77 | the sensor-health mask never changes the result |
| `SystemStatus.InsNeedsAllFourBits` | sources/domain/communication/mavlink_communicator/mavlink_handlers/system_status_handler.cpp:44-51 | clearing the accelerometer or gyro bit in either mask makes INS unavailable |

## Left out

- The serial device pool. `serial_device_pool.h` declares the busy and
  available partition, but the code that computes it is not part of this
  model.
- Bluetooth discovery (`bluetooth_service.cpp`), map presentation, network
  endpoints and home-position handling. These are platform I/O or
  presentation code with no logic in the core.
- MAVLink packing and unpacking, `sendMessageAllLinks`, and the system and
  component ids. Messages are plain records, and outbound sends are a
  returned list.
- `decodeVoltage`, `decodeCurrent`, the mission-item factory and the link
  factory. Their code is not part of this model, so they are parameters.
  The factory is only required to build an item of the requested kind, and
  the attributes it presets are whatever the parameter gives.
- Floating point. Wire floats are `real`, NaN is a `NaN` constructor used
  only for the unset position, and `qFuzzyIsNull` is an exact zero test.
- Qt ownership and event machinery: `setParent`, `delete`, signal and slot
  wiring as such, `QTimer` scheduling, the `QTime` timestamp (an input
  `now`, read once per tick where the source reads the clock once per link),
  other timer ids passed on to `QObject::timerEvent`, and the thread
  and event-loop serialisation. Every operation is one atomic step.
- The `connectedChanged` signal a link may raise by itself during
  `connectLink()`. Only the explicit status event of `updateLinkImpl` is
  modelled. The connection outcome is an input, and `setConnected` is
  assumed to be granted.
- `CommunicatorWorker.UpdateLink`: for a null registry entry the source
  hands the null pointer to the factory's `update`. Its code is not part of
  this model, so the entry is modelled as left unchanged.
- `CommunicatorWorker.AddCommunicator`: a null registry entry is handed to
  the communicator's `addLink`. Its code is not part of this model, so null
  entries are never wired.
- `MissionHandler.SendMissionItem`: it requires the requested item to exist
  when the index is below the count. The source dereferences
  `mission->item(seq)` with no null check, so the behaviour for a missing
  item is undefined and not modelled.
- `CommunicatorWorker.Tick`: it requires every registry entry to hold a
  link, because the source dereferences each entry without a null check.
- `MissionHandler.ServeRequests`: every request in a run reuses one
  `scratch` value. In the source, each `sendMissionItem` call has its own
  uninitialised struct. So the unwritten fields, `current` among them, are
  taken to hold the same leftover contents for every item sent.
