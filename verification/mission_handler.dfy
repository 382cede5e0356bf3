/**
 * The MAVLink mission-transfer handler: the count -> request -> item -> ack
 * handshake for downloading a mission from a vehicle, and the count /
 * item-on-request side of uploading one.
 *
 * The mission service is reduced to what the handler touches: the mission
 * of each vehicle id and the two progress counters. The bodies of `Mission`
 * are not part of this model; it is taken to be a record whose `count` is
 * changed only by `setCount` and whose items form a map from sequence number
 * to item written only by `setMissionItem`. Outbound messages are returned
 * as a list in the order the source sends them.
 */
module MissionHandler {
  import opened Mavlink
  import opened MissionItems

  datatype Mission = Mission(count: nat, items: map<int, MissionItem>)

  /** The mission service state the handler reads and writes. */
  datatype Service = Service(missions: map<uint8, Mission>, currentCount: int, totalCount: int)

  /** The outcome of handling one event: the new state and the messages sent, in order. */
  datatype Step = Step(service: Service, sent: seq<Outbound>)

  /** The mission-item factory: a fresh item for a command. */
  type Factory = Command -> ItemBody

  /** The factory builds an item of the kind it is asked for. */
  predicate Builds(factory: Factory)
  {
    forall k: Command :: factory(k).Command() == k
  }

  /** Every index below the declared count holds an item. */
  predicate Populated(m: Mission)
  {
    forall i: int :: 0 <= i < m.count ==> i in m.items
  }

  /**
   * `sendMissionItem` reads `mission->item(seq)` without a null check once
   * the index is in range, so the item has to be there.
   */
  predicate ItemAvailable(s: Service, id: uint8, index: uint16)
  {
    id in s.missions && index < s.missions[id].count ==> index in s.missions[id].items
  }

  /** `requestMission`: ask the vehicle for its mission list. */
  function RequestMission(s: Service, id: uint8): (r: Step)
    ensures r.service == s
    ensures r.sent == [RequestList(id)]
  {
    Step(s, [RequestList(id)])
  }

  /** One item request for every sequence number below `n`, in ascending order. */
  function RequestItems(id: uint8, n: nat): (r: seq<Outbound>)
    requires n <= 0x1_0000
    ensures |r| == n
    ensures forall i :: 0 <= i < n ==> r[i] == RequestItem(id, i)
  {
    if n == 0 then [] else RequestItems(id, n - 1) + [RequestItem(id, n - 1)]
  }

  /**
   * `processMissionCount`: a vehicle announced `count` items. Unless the
   * vehicle has no mission, both counters restart, the mission takes the
   * declared count and every item is requested once, in order.
   */
  function ProcessMissionCount(s: Service, sysid: uint8, count: uint16): (r: Step)
    ensures sysid !in s.missions ==> r == Step(s, [])
    ensures sysid in s.missions ==>
              && r.service.currentCount == 0
              && r.service.totalCount == count
              && r.service.missions.Keys == s.missions.Keys
              && r.service.missions[sysid] == s.missions[sysid].(count := count)
              && (forall id :: id in s.missions && id != sysid ==> r.service.missions[id] == s.missions[id])
              && |r.sent| == count
              && (forall i :: 0 <= i < count ==> r.sent[i] == RequestItem(sysid, i))
  {
    if sysid !in s.missions then Step(s, [])
    else
      var m := s.missions[sysid];
      Step(Service(s.missions[sysid := m.(count := count)], 0, count), RequestItems(sysid, count))
  }

  /**
   * `sendMissionCount`: announce the local mission of vehicle `id` and
   * restart both counters. The source reads the mission with no null
   * check, so the vehicle must have one. The `int` count is narrowed to the
   * 16-bit wire field, and the narrowed value becomes the total.
   */
  function SendMissionCount(s: Service, id: uint8): (r: Step)
    requires id in s.missions
    ensures r.service.missions == s.missions
    ensures r.service.currentCount == 0
    ensures r.service.totalCount == ToUint16(s.missions[id].count)
    ensures s.missions[id].count < 0x1_0000 ==> r.service.totalCount == s.missions[id].count
    ensures r.sent == [Count(id, r.service.totalCount)]
  {
    var count := ToUint16(s.missions[id].count);
    Step(s.(currentCount := 0, totalCount := count), [Count(id, count)])
  }

  /**
   * `sendMissionItem`: answer a request for item `index`. Out of range or
   * with no mission nothing happens; otherwise the item is encoded and sent
   * and the progress counter goes up by one. `scratch` is the uninitialised
   * payload the encoder starts from.
   */
  function SendMissionItem(s: Service, id: uint8, index: uint16, scratch: WireItem): (r: Step)
    requires ItemAvailable(s, id, index)
    ensures !(id in s.missions && index < s.missions[id].count) ==> r == Step(s, [])
    ensures id in s.missions && index < s.missions[id].count ==>
              && r.service == s.(currentCount := s.currentCount + 1)
              && |r.sent| == 1
              && r.sent[0].Item?
              && r.sent[0].target == id
              && r.sent[0].item.sequence == index
              && r.sent[0].item == EncodeItem(s.missions[id].items[index], index, s.missions[id].count, scratch)
  {
    if id !in s.missions || s.missions[id].count <= index then Step(s, [])
    else
      var m := s.missions[id];
      Step(s.(currentCount := s.currentCount + 1), [Item(id, EncodeItem(m.items[index], index, m.count, scratch))])
  }

  /** `sendMissionAck`: acknowledge a completed download as accepted. */
  function SendMissionAck(s: Service, id: uint8): (r: Step)
    ensures r.service == s
    ensures r.sent == [Ack(id, MAV_MISSION_ACCEPTED)]
  {
    Step(s, [Ack(id, MAV_MISSION_ACCEPTED)])
  }

  /**
   * `processMissionItem`: decode a received item and store it at its
   * sequence number. The progress counter is then SET to the mission's
   * count (it is not incremented), and an accepted ack goes out exactly
   * when that count equals the announced total.
   */
  function ProcessMissionItem(s: Service, sysid: uint8, w: WireItem, factory: Factory): (r: Step)
    requires Builds(factory)
    ensures sysid !in s.missions ==> r == Step(s, [])
    ensures sysid in s.missions ==>
              var m := s.missions[sysid];
              && r.service.missions.Keys == s.missions.Keys
              && r.service.missions[sysid].count == m.count
              && r.service.missions[sysid].items.Keys == m.items.Keys + {w.sequence as int}
              && r.service.missions[sysid].items[w.sequence] ==
                   DecodeItem(w, factory(DecodeCommand(w.command, ToUint8(w.sequence))))
              && (r.service.missions[sysid].items[w.sequence].current <==> w.current != 0)
              && (forall i :: i in m.items && i != w.sequence as int ==>
                    r.service.missions[sysid].items[i] == m.items[i])
              && (forall id :: id in s.missions && id != sysid ==> r.service.missions[id] == s.missions[id])
              && r.service.currentCount == m.count
              && r.service.totalCount == s.totalCount
              && (r.service.currentCount == r.service.totalCount ==> r.sent == [Ack(sysid, MAV_MISSION_ACCEPTED)])
              && (r.service.currentCount != r.service.totalCount ==> r.sent == [])
  {
    if sysid !in s.missions then Step(s, [])
    else
      var m := s.missions[sysid];
      var made := factory(DecodeCommand(w.command, ToUint8(w.sequence)));
      var item := DecodeItem(w, made);
      var m' := m.(items := m.items[w.sequence as int := item]);
      var s' := s.(missions := s.missions[sysid := m'], currentCount := m'.count);
      if s'.currentCount == s'.totalCount then SendMissionAck(s', sysid) else Step(s', [])
  }

  /** `processMissionRequest`: serve the requested item. */
  function ProcessMissionRequest(s: Service, sysid: uint8, index: uint16, scratch: WireItem): (r: Step)
    requires ItemAvailable(s, sysid, index)
    ensures r == SendMissionItem(s, sysid, index, scratch)
  {
    SendMissionItem(s, sysid, index, scratch)
  }

  /**
   * `processMissionAck`: the ack is decoded but its type is not acted on,
   * with or without a mission.
   */
  function ProcessMissionAck(s: Service, sysid: uint8, ackType: uint8): (r: Step)
    ensures r.service == s
    ensures r.sent == []
  {
    Step(s, [])
  }

  /** What the source needs of an inbound message before it can be handled. */
  predicate Handleable(s: Service, msg: Message)
  {
    msg.payload.RequestPayload? ==> ItemAvailable(s, msg.sysid, msg.payload.sequence)
  }

  /** `processMessage`: dispatch on the message id. */
  function ProcessMessage(s: Service, msg: Message, factory: Factory, scratch: WireItem): (r: Step)
    requires Builds(factory)
    requires Handleable(s, msg)
    ensures MsgId(msg.payload) !in {MAVLINK_MSG_ID_MISSION_COUNT, MAVLINK_MSG_ID_MISSION_ITEM,
                                    MAVLINK_MSG_ID_MISSION_REQUEST} ==>
              r == Step(s, [])
    ensures msg.payload.CountPayload? ==> r == ProcessMissionCount(s, msg.sysid, msg.payload.count)
    ensures msg.payload.ItemPayload? ==> r == ProcessMissionItem(s, msg.sysid, msg.payload.item, factory)
    ensures msg.payload.RequestPayload? ==> r == SendMissionItem(s, msg.sysid, msg.payload.sequence, scratch)
  {
    match msg.payload
    case CountPayload(count) => ProcessMissionCount(s, msg.sysid, count)
    case ItemPayload(w) => ProcessMissionItem(s, msg.sysid, w, factory)
    case RequestPayload(index) => ProcessMissionRequest(s, msg.sysid, index, scratch)
    case AckPayload(ackType) => ProcessMissionAck(s, msg.sysid, ackType)
    case StatusPayload(_) => Step(s, [])
    case OtherPayload(_) => Step(s, [])
  }

  /**
   * A MISSION_REQUEST_LIST from a vehicle falls to the default branch of
   * the dispatch: the handler does not serve mission uploads to vehicles.
   */
  lemma RequestListIgnored(s: Service, sysid: uint8, factory: Factory, scratch: WireItem)
    requires Builds(factory)
    ensures ProcessMessage(s, Message(sysid, OtherPayload(MAVLINK_MSG_ID_MISSION_REQUEST_LIST)), factory, scratch)
            == Step(s, [])
  {
  }

  // ---------------------------------------------------------------------
  // Download: a count message followed by item messages.

  /** The handler after a count message: the mission's count equals the total. */
  predicate CountsAgree(s: Service, id: uint8)
  {
    id in s.missions && s.missions[id].count == s.totalCount
  }

  /** Handle the item messages `ws` from vehicle `id`, one after the other. */
  function ReceiveItems(s: Service, id: uint8, ws: seq<WireItem>, factory: Factory): (r: Step)
    requires Builds(factory)
    decreases |ws|
  {
    if |ws| == 0 then Step(s, [])
    else
      var first := ProcessMissionItem(s, id, ws[0], factory);
      var rest := ReceiveItems(first.service, id, ws[1..], factory);
      Step(rest.service, first.sent + rest.sent)
  }

  /**
   * Once a count message has been handled, the mission's count equals the
   * total, so EVERY item received afterwards (the first one, and repeats of
   * the same sequence number, included) draws its own accepted ack: `k` items
   * draw `k` acks, and the progress counter sits at the total throughout.
   */
  lemma {:induction false} EveryItemIsAcked(s: Service, id: uint8, ws: seq<WireItem>, factory: Factory)
    requires Builds(factory)
    requires CountsAgree(s, id)
    ensures var r := ReceiveItems(s, id, ws, factory);
      && CountsAgree(r.service, id)
      && (|ws| > 0 ==> r.service.currentCount == r.service.totalCount)
      && |r.sent| == |ws|
      && (forall i :: 0 <= i < |r.sent| ==> r.sent[i] == Ack(id, MAV_MISSION_ACCEPTED))
    decreases |ws|
  {
    if |ws| > 0 {
      var first := ProcessMissionItem(s, id, ws[0], factory);
      EveryItemIsAcked(first.service, id, ws[1..], factory);
    }
  }

  /**
   * The progress and total counters are one pair shared by all vehicles. A
   * count message from another vehicle in the middle of a download resets
   * the total, and from then on the first vehicle's items draw no ack.
   */
  lemma CountFromOtherVehicleSilencesAcks(s: Service, a: uint8, b: uint8, countA: uint16, countB: uint16,
                                          w: WireItem, factory: Factory)
    requires Builds(factory)
    requires a in s.missions && b in s.missions && a != b && countA != countB
    ensures var counted := ProcessMissionCount(ProcessMissionCount(s, a, countA).service, b, countB).service;
      && !CountsAgree(counted, a)
      && ProcessMissionItem(counted, a, w, factory).sent == []
  {
  }

  /**
   * Likewise an upload to another vehicle started in the middle of a
   * download: announcing its count replaces the shared total.
   */
  lemma UploadToOtherVehicleSilencesAcks(s: Service, a: uint8, b: uint8, countA: uint16,
                                         w: WireItem, factory: Factory)
    requires Builds(factory)
    requires a in s.missions && b in s.missions && a != b
    requires s.missions[b].count < 0x1_0000 && s.missions[b].count != countA
    ensures var announced := SendMissionCount(ProcessMissionCount(s, a, countA).service, b).service;
      && !CountsAgree(announced, a)
      && ProcessMissionItem(announced, a, w, factory).sent == []
  {
  }

  /**
   * A two-item download as the code runs it: a count of two draws the
   * requests for 0 and then 1, and the ack is sent already after the FIRST
   * item, not only after the second.
   */
  lemma AckAfterFirstItem(s: Service, id: uint8, w0: WireItem, factory: Factory)
    requires Builds(factory)
    requires id in s.missions
    ensures var counted := ProcessMissionCount(s, id, 2);
      && counted.sent == [RequestItem(id, 0), RequestItem(id, 1)]
      && ProcessMissionItem(counted.service, id, w0, factory).sent == [Ack(id, MAV_MISSION_ACCEPTED)]
  {
  }

  // ---------------------------------------------------------------------
  // Upload: item requests served against the local mission.

  /** How many of `indices` lie below `n`. */
  function CountBelow(indices: seq<uint16>, n: nat): (k: nat)
    ensures k <= |indices|
  {
    if |indices| == 0 then 0
    else (if indices[0] < n then 1 else 0) + CountBelow(indices[1..], n)
  }

  /** Serve the item requests `indices` from vehicle `id`, one after the other. */
  function ServeRequests(s: Service, id: uint8, indices: seq<uint16>, scratch: WireItem): (r: Step)
    requires id in s.missions && Populated(s.missions[id])
    decreases |indices|
  {
    if |indices| == 0 then Step(s, [])
    else
      var first := SendMissionItem(s, id, indices[0], scratch);
      var rest := ServeRequests(first.service, id, indices[1..], scratch);
      Step(rest.service, first.sent + rest.sent)
  }

  /**
   * Serving requests leaves the mission alone, sends one item for each
   * in-range request and none for the others, and advances the progress
   * counter by exactly the number of items sent, repeats included.
   */
  lemma {:induction false} ServeRequestsCounts(s: Service, id: uint8, indices: seq<uint16>, scratch: WireItem)
    requires id in s.missions && Populated(s.missions[id])
    ensures var r := ServeRequests(s, id, indices, scratch);
      && r.service.missions == s.missions
      && r.service.totalCount == s.totalCount
      && |r.sent| == CountBelow(indices, s.missions[id].count)
      && r.service.currentCount == s.currentCount + |r.sent|
      && (forall i :: 0 <= i < |r.sent| ==> r.sent[i].Item? && r.sent[i].target == id)
    decreases |indices|
  {
    if |indices| > 0 {
      var first := SendMissionItem(s, id, indices[0], scratch);
      ServeRequestsCounts(first.service, id, indices[1..], scratch);
    }
  }

  /** The sequence numbers 0 .. n-1 in ascending order. */
  function Ascending(n: nat): (r: seq<uint16>)
    requires n <= 0x1_0000
    ensures |r| == n
    ensures forall i :: 0 <= i < n ==> r[i] == i
  {
    if n == 0 then [] else Ascending(n - 1) + [n - 1]
  }

  /** Every element of the ascending run 0 .. n-1 lies below any bound of at least n. */
  lemma {:induction false} CountBelowAscending(n: nat, bound: nat)
    requires n <= 0x1_0000 && n <= bound
    ensures CountBelow(Ascending(n), bound) == n
    decreases n
  {
    if n > 0 {
      CountBelowAppend(Ascending(n - 1), n - 1, bound);
      CountBelowAscending(n - 1, bound);
    }
  }

  lemma {:induction false} CountBelowAppend(xs: seq<uint16>, x: uint16, bound: nat)
    ensures CountBelow(xs + [x], bound) == CountBelow(xs, bound) + (if x < bound then 1 else 0)
    decreases |xs|
  {
    if |xs| == 0 {
      assert (xs + [x])[1..] == [];
    } else {
      assert (xs + [x])[1..] == xs[1..] + [x];
      CountBelowAppend(xs[1..], x, bound);
    }
  }

  /** Requests that are all in range are answered one item each, in request order. */
  lemma {:induction false} ServeInRange(s: Service, id: uint8, indices: seq<uint16>, scratch: WireItem)
    requires id in s.missions && Populated(s.missions[id])
    requires forall i :: 0 <= i < |indices| ==> indices[i] < s.missions[id].count
    ensures var r := ServeRequests(s, id, indices, scratch);
      var m := s.missions[id];
      && |r.sent| == |indices|
      && (forall i :: 0 <= i < |indices| ==>
            r.sent[i] == Item(id, EncodeItem(m.items[indices[i]], indices[i], m.count, scratch)))
    decreases |indices|
  {
    if |indices| > 0 {
      var first := SendMissionItem(s, id, indices[0], scratch);
      ServeInRange(first.service, id, indices[1..], scratch);
    }
  }

  /**
   * A complete upload: after the count is announced, a vehicle that
   * requests every item once, in order, receives every item encoded, in
   * order, and the progress counter ends equal to the total.
   */
  lemma CompleteUpload(s: Service, id: uint8, scratch: WireItem)
    requires id in s.missions && Populated(s.missions[id])
    requires s.missions[id].count < 0x1_0000
    ensures var m := s.missions[id];
      var announced := SendMissionCount(s, id);
      var served := ServeRequests(announced.service, id, Ascending(m.count), scratch);
      && announced.sent == [Count(id, m.count)]
      && |served.sent| == m.count
      && (forall i :: 0 <= i < m.count ==> served.sent[i] == Item(id, EncodeItem(m.items[i], i, m.count, scratch)))
      && served.service.currentCount == served.service.totalCount
  {
    var m := s.missions[id];
    var announced := SendMissionCount(s, id);
    ServeRequestsCounts(announced.service, id, Ascending(m.count), scratch);
    ServeInRange(announced.service, id, Ascending(m.count), scratch);
    CountBelowAscending(m.count, m.count);
  }
}
