/**
 * The communication mediator (`CommunicatorWorker`): a registry of links by
 * id and a list of communicators (protocol codecs), kept fully wired — every
 * registered communicator is attached to every registered link — plus the
 * once-a-second statistics tick and the forwarding of link and telemetry
 * events tagged with the link id.
 *
 * Pointers are modelled by identities: a communicator by a `CommId`, a
 * link object by the `handle` it carries. The attachment of a communicator
 * to a link (`addLink` / `removeLink` on the communicator) is the explicit
 * relation `wiring` of (communicator, link id) pairs.
 */
module CommunicatorWorker {
  import opened Wrappers
  import opened OrderedMap

  type CommId = nat

  /** A link: object identity, connection flag and the two byte counters. */
  datatype Link = Link(handle: nat, connected: bool, received: nat, sent: nat)

  /**
   * A registry value: a link, or the null pointer that `QMap::operator[]`
   * inserts when it is asked for an id it does not hold.
   */
  datatype Slot = Null | Live(link: Link)

  datatype Worker = Worker(links: Table<Slot>, comms: seq<CommId>, wiring: set<(CommId, int)>)

  /** `AbstractCommunicator::Protocol`. */
  datatype Protocol = MavLink1 | MavLink2 | Unknown

  /** `dto::LinkDescription::Protocol`. */
  datatype DtoProtocol = DtoMavLink1 | DtoMavLink2 | UnknownProtocol

  /** What a link object signals about itself. */
  datatype LinkSignal = ConnectedChanged(connected: bool) | DataReceived | DataSent | Errored(error: string)

  /** The worker's outgoing signals. */
  datatype Event =
    | LinkStatusChanged(id: int, connected: bool)
    | LinkRecv(id: int)
    | LinkSent(id: int)
    | LinkErrored(id: int, error: string)
    | LinkStatisticsChanged(id: int, time: int, bytesReceived: nat, bytesSent: nat)
    | MavLinkStatisticsChanged(id: int, packetsReceived: int, packetsDrops: int)
    | MavLinkProtocolChanged(id: int, protocol: DtoProtocol)

  /** A new worker state together with the signals emitted on the way. */
  datatype Outcome = Outcome(worker: Worker, events: seq<Event>)

  /** Ids whose registry entry holds a real link (not a null entry). */
  function LiveIds(t: Table<Slot>): set<int>
  {
    set k | k in Keys(t) && Get(t, k).value.Live?
  }

  /** Every communicator paired with every id. */
  function Product(cs: seq<CommId>, ids: set<int>): set<(CommId, int)>
  {
    set c, k | c in cs && k in ids :: (c, k)
  }

  predicate NoDuplicates(cs: seq<CommId>)
  {
    forall i, j :: 0 <= i < j < |cs| ==> cs[i] != cs[j]
  }

  /**
   * The mediator invariant: no communicator is registered twice, and the
   * wiring is exactly registered communicators x registered links.
   */
  predicate Valid(w: Worker)
  {
    NoDuplicates(w.comms) && w.wiring == Product(w.comms, LiveIds(w.links))
  }

  lemma LiveIdsPut(t: Table<Slot>, k: int, s: Slot)
    ensures LiveIds(Put(t, k, s)) == (LiveIds(t) - {k}) + (if s.Live? then {k} else {})
  {
  }

  lemma LiveIdsRemove(t: Table<Slot>, k: int)
    ensures LiveIds(Remove(t, k)) == LiveIds(t) - {k}
  {
  }

  // ---------------------------------------------------------------------
  // Communicators

  /** The position of the first occurrence of `c` in `cs`. */
  function FirstIndex(cs: seq<CommId>, c: CommId): (i: nat)
    requires c in cs
    ensures i < |cs| && cs[i] == c && c !in cs[..i]
  {
    if cs[0] == c then 0
    else
      var j := FirstIndex(cs[1..], c);
      assert cs[..j + 1] == [cs[0]] + cs[1..][..j];
      j + 1
  }

  /** Cutting position `i` out of a list keeps every other element, in order. */
  lemma Splice(cs: seq<CommId>, i: nat)
    requires i < |cs|
    ensures var r := cs[..i] + cs[i + 1..];
      && |r| == |cs| - 1
      && (forall x :: x in r ==> x in cs)
      && (forall x :: x in cs && x != cs[i] ==> x in r)
      && (NoDuplicates(cs) ==> NoDuplicates(r) && cs[i] !in r)
  {
  }

  /**
   * `QList::removeOne`: cut out the first occurrence of `c`, if any,
   * keeping the order of the rest.
   */
  function RemoveOne(cs: seq<CommId>, c: CommId): (r: seq<CommId>)
    ensures c !in cs ==> r == cs
    ensures c in cs ==> r == cs[..FirstIndex(cs, c)] + cs[FirstIndex(cs, c) + 1..]
    ensures c in cs ==> |r| == |cs| - 1
    ensures forall x :: x in r ==> x in cs
    ensures forall x :: x in cs && x != c ==> x in r
    ensures NoDuplicates(cs) ==> NoDuplicates(r) && c !in r
  {
    if c in cs then
      var i := FirstIndex(cs, c);
      Splice(cs, i);
      cs[..i] + cs[i + 1..]
    else cs
  }

  /**
   * `addCommunicatorImpl`: ignore a null or already registered
   * communicator; otherwise attach it to every registered link and append it.
   */
  function AddCommunicator(w: Worker, c: Option<CommId>): (r: Worker)
    ensures c.None? || c.value in w.comms ==> r == w
    ensures c.Some? && c.value !in w.comms ==>
              && r.links == w.links
              && r.comms == w.comms + [c.value]
              && r.wiring == w.wiring + (set k | k in LiveIds(w.links) :: (c.value, k))
    ensures Valid(w) ==> Valid(r)
  {
    if c.None? || c.value in w.comms then w
    else
      var r := Worker(w.links, w.comms + [c.value],
                      w.wiring + (set k | k in LiveIds(w.links) :: (c.value, k)));
      assert Product(r.comms, LiveIds(r.links)) ==
             Product(w.comms, LiveIds(w.links)) + (set k | k in LiveIds(w.links) :: (c.value, k));
      r
  }

  /**
   * `deleteCommunicatorImpl`: ignore a communicator that is not
   * registered; otherwise detach it from every link and drop it.
   */
  function DeleteCommunicator(w: Worker, c: Option<CommId>): (r: Worker)
    ensures c.None? || c.value !in w.comms ==> r == w
    ensures c.Some? && c.value in w.comms ==>
              && r.links == w.links
              && r.comms == RemoveOne(w.comms, c.value)
              && r.wiring == w.wiring - (set k | k in LiveIds(w.links) :: (c.value, k))
    ensures Valid(w) && c.Some? ==> Valid(r) && c.value !in r.comms
  {
    if c.None? || c.value !in w.comms then w
    else
      var r := Worker(w.links, RemoveOne(w.comms, c.value),
                      w.wiring - (set k | k in LiveIds(w.links) :: (c.value, k)));
      assert Valid(w) ==> (Product(r.comms, LiveIds(r.links)) ==
                           Product(w.comms, LiveIds(w.links)) - (set k | k in LiveIds(w.links) :: (c.value, k)));
      r
  }

  // ---------------------------------------------------------------------
  // Links

  /**
   * `updateLinkImpl`. For a known id the factory's update is applied to the
   * registered link in place (a null entry is handed over unchanged) and
   * nothing else moves: being in place, the update can change the link's
   * state but not its identity, so the handle is kept whatever `update`
   * returns. For a new id, `created` is what the factory's
   * `create()` returned: nothing happens if it is null; otherwise the link
   * is registered under `id` and attached to every communicator, and with
   * `autoconnect` it is connected (the transport's answer is
   * `connectResult`) and one status event reports the result.
   */
  function UpdateLink(w: Worker, id: int, created: Option<Link>, update: Link -> Link,
                      autoconnect: bool, connectResult: bool): (r: Outcome)
    ensures id in Keys(w.links) ==>
              && Keys(r.worker.links) == Keys(w.links)
              && r.worker.comms == w.comms
              && r.worker.wiring == w.wiring
              && r.events == []
              && Get(r.worker.links, id) ==
                   (match Get(w.links, id).value
                    case Live(l) => Some(Live(update(l).(handle := l.handle)))
                    case Null => Some(Null))
              && (Get(r.worker.links, id).value.Live? <==> Get(w.links, id).value.Live?)
              && (Get(w.links, id).value.Live? ==>
                    Get(r.worker.links, id).value.link.handle == Get(w.links, id).value.link.handle)
              && (forall j :: j != id ==> Get(r.worker.links, j) == Get(w.links, j))
    ensures id !in Keys(w.links) && created.None? ==> r == Outcome(w, [])
    ensures id !in Keys(w.links) && created.Some? ==>
              && Keys(r.worker.links) == Keys(w.links) + {id}
              && Get(r.worker.links, id).value.Live?
              && Get(r.worker.links, id).value.link.handle == created.value.handle
              && (forall j :: j != id ==> Get(r.worker.links, j) == Get(w.links, j))
              && r.worker.comms == w.comms
              && r.worker.wiring == w.wiring + (set c | c in w.comms :: (c, id))
              && (autoconnect ==> r.events == [LinkStatusChanged(id, connectResult)]
                                  && Get(r.worker.links, id).value.link == created.value.(connected := connectResult))
              && (!autoconnect ==> r.events == [] && Get(r.worker.links, id).value.link == created.value)
    ensures Valid(w) ==> Valid(r.worker)
  {
    if id in Keys(w.links) then
      var slot := match Get(w.links, id).value
                  case Live(l) => Live(update(l).(handle := l.handle))
                  case Null => Null;
      LiveIdsPut(w.links, id, slot);
      Outcome(w.(links := Put(w.links, id, slot)), [])
    else if created.None? then
      Outcome(w, [])
    else
      var link := if autoconnect then created.value.(connected := connectResult) else created.value;
      var r := Worker(Put(w.links, id, Live(link)), w.comms, w.wiring + (set c | c in w.comms :: (c, id)));
      LiveIdsPut(w.links, id, Live(link));
      assert Product(r.comms, LiveIds(r.links)) ==
             Product(w.comms, LiveIds(w.links)) + (set c | c in w.comms :: (c, id));
      Outcome(r, if autoconnect then [LinkStatusChanged(id, connectResult)] else [])
  }

  /**
   * `removeLinkImpl`: ignore an unknown id; otherwise detach the link from
   * every communicator and take it out of the registry.
   */
  function RemoveLink(w: Worker, id: int): (r: Worker)
    ensures id !in Keys(w.links) ==> r == w
    ensures id in Keys(w.links) ==>
              && Keys(r.links) == Keys(w.links) - {id}
              && (forall j :: j != id ==> Get(r.links, j) == Get(w.links, j))
              && r.comms == w.comms
              && r.wiring == w.wiring - (set c | c in w.comms :: (c, id))
    ensures Valid(w) ==> Valid(r)
  {
    if id !in Keys(w.links) then w
    else
      var r := Worker(Remove(w.links, id), w.comms, w.wiring - (set c | c in w.comms :: (c, id)));
      LiveIdsRemove(w.links, id);
      assert Product(r.comms, LiveIds(r.links)) ==
             Product(w.comms, LiveIds(w.links)) - (set c | c in w.comms :: (c, id));
      r
  }

  /**
   * `setLinkConnectedImpl`. The lookup goes through `QMap::operator[]`,
   * which inserts a null entry for an id it does not hold: an unknown id is
   * NOT left alone, it gains a null registry entry. A registered link is
   * asked to take the requested state (assumed granted).
   */
  function SetLinkConnected(w: Worker, id: int, connected: bool): (r: Worker)
    ensures id !in Keys(w.links) ==>
              && Keys(r.links) == Keys(w.links) + {id}
              && Get(r.links, id) == Some(Null)
    ensures id in Keys(w.links) ==> Keys(r.links) == Keys(w.links)
    ensures id in Keys(w.links) && Get(w.links, id).value.Live? ==>
              Get(r.links, id) == Some(Live(Get(w.links, id).value.link.(connected := connected)))
    ensures id in Keys(w.links) && Get(w.links, id).value.Null? ==> r == w
    ensures forall j :: j != id ==> Get(r.links, j) == Get(w.links, j)
    ensures r.comms == w.comms && r.wiring == w.wiring
    ensures LiveIds(r.links) == LiveIds(w.links)
    ensures Valid(w) ==> Valid(r)
  {
    var found: Option<Slot> := Get(w.links, id);
    if found.None? then
      LiveIdsPut(w.links, id, Null);
      assert id !in LiveIds(w.links);
      w.(links := Put(w.links, id, Null))
    else if found.value.Null? then w
    else
      var l := found.value.link;
      LiveIdsPut(w.links, id, Live(l.(connected := connected)));
      assert id in LiveIds(w.links);
      var r := w.(links := Put(w.links, id, Live(l.(connected := connected))));
      assert LiveIds(r.links) == LiveIds(w.links);
      r
  }

  /** The lambdas `updateLinkImpl` connects: a link's own signal, tagged with its id. */
  function ForwardLinkSignal(id: int, signal: LinkSignal): (e: Event)
    ensures e.id == id
    ensures signal.ConnectedChanged? <==> e.LinkStatusChanged?
    ensures signal.ConnectedChanged? ==> e.connected == signal.connected
    ensures signal.DataReceived? <==> e.LinkRecv?
    ensures signal.DataSent? <==> e.LinkSent?
    ensures signal.Errored? <==> e.LinkErrored?
    ensures signal.Errored? ==> e.error == signal.error
  {
    match signal
    case ConnectedChanged(c) => LinkStatusChanged(id, c)
    case DataReceived => LinkRecv(id)
    case DataSent => LinkSent(id)
    case Errored(message) => LinkErrored(id, message)
  }

  // ---------------------------------------------------------------------
  // Statistics tick

  /**
   * The tick reads every registry entry through the pointer without a null
   * check, so it needs every entry to hold a link.
   */
  predicate TickSafe(w: Worker)
  {
    forall i :: 0 <= i < |w.links| ==> w.links[i].value.Live?
  }

  /** A link after its counters have been taken. */
  function Drained(l: Link): (r: Link)
    ensures r.received == 0 && r.sent == 0
    ensures r.handle == l.handle && r.connected == l.connected
  {
    l.(received := 0, sent := 0)
  }

  /**
   * `timerEvent` for the statistics timer: for each registered id in
   * ascending order, one statistics event with the time `now` and the
   * counters as they were, which are then zero ("take" semantics). The
   * registry keys, the communicators and the wiring do not change.
   */
  function Tick(w: Worker, now: int): (r: Outcome)
    requires TickSafe(w)
    ensures |r.events| == |w.links| == |r.worker.links|
    ensures forall i :: 0 <= i < |w.links| ==>
              r.events[i] == LinkStatisticsChanged(w.links[i].key, now,
                                                   w.links[i].value.link.received,
                                                   w.links[i].value.link.sent)
    ensures forall i :: 0 <= i < |w.links| ==>
              r.worker.links[i] == Entry(w.links[i].key, Live(Drained(w.links[i].value.link)))
    ensures forall i, j :: 0 <= i < j < |r.events| ==> r.events[i].id < r.events[j].id
    ensures Keys(r.worker.links) == Keys(w.links)
    ensures r.worker.comms == w.comms && r.worker.wiring == w.wiring
    ensures TickSafe(r.worker)
    ensures Valid(w) ==> Valid(r.worker)
  {
    var t := w.links;
    var links: seq<Entry<Slot>> :=
      seq(|t|, i requires 0 <= i < |t| => Entry(t[i].key, Live(Drained(t[i].value.link))));
    var events :=
      seq(|t|, i requires 0 <= i < |t| =>
        LinkStatisticsChanged(t[i].key, now, t[i].value.link.received, t[i].value.link.sent));
    assert Sorted(links);
    var r := w.(links := links);
    assert Keys(links) == Keys(t) by {
      assert forall i :: 0 <= i < |t| ==> links[i].key == t[i].key;
    }
    assert LiveIds(links) == LiveIds(t) by {
      AllLive(t);
      AllLive(links);
    }
    Outcome(r, events)
  }

  /** When every entry holds a link, the live ids are all the ids. */
  lemma AllLive(t: Table<Slot>)
    requires forall i :: 0 <= i < |t| ==> t[i].value.Live?
    ensures LiveIds(t) == Keys(t)
  {
    forall k | k in Keys(t)
      ensures Get(t, k).value.Live?
    {
      GetFound(t, k);
    }
  }

  // ---------------------------------------------------------------------
  // Telemetry forwarding

  /** Index of the first entry (in key order) holding the link `handle`. */
  function FirstHolding(t: Table<Slot>, handle: nat): (r: Option<nat>)
    ensures r.Some? ==> r.value < |t| && t[r.value].value.Live? && t[r.value].value.link.handle == handle
    ensures r.Some? ==> forall i :: 0 <= i < r.value ==> !(t[i].value.Live? && t[i].value.link.handle == handle)
    ensures r.None? ==> forall i :: 0 <= i < |t| ==> !(t[i].value.Live? && t[i].value.link.handle == handle)
    decreases |t|
  {
    if |t| == 0 then None
    else if t[0].value.Live? && t[0].value.link.handle == handle then Some(0)
    else
      match FirstHolding(t[1..], handle)
      case None => None
      case Some(i) => Some(i + 1)
  }

  /** `descriptedLinks.key(link, 0)`: the smallest id holding the link, or 0. */
  function LinkIdOf(t: Table<Slot>, handle: nat): (id: int)
  {
    match FirstHolding(t, handle)
    case None => 0
    case Some(i) => t[i].key
  }

  /** Registry entry `s` holds the link object `handle`. */
  predicate Holds(s: Slot, handle: nat)
  {
    s.Live? && s.link.handle == handle
  }

  /**
   * The reverse lookup in terms of the registry's lookups alone: the least
   * id whose entry holds the link, or 0 when no entry does.
   */
  lemma LinkIdOfIsLeastHolder(t: Table<Slot>, handle: nat)
    ensures (exists k :: k in Keys(t) && Holds(Get(t, k).value, handle)) ==>
              && LinkIdOf(t, handle) in Keys(t)
              && Holds(Get(t, LinkIdOf(t, handle)).value, handle)
              && (forall k :: k in Keys(t) && Holds(Get(t, k).value, handle) ==> LinkIdOf(t, handle) <= k)
    ensures !(exists k :: k in Keys(t) && Holds(Get(t, k).value, handle)) ==> LinkIdOf(t, handle) == 0
  {
    match FirstHolding(t, handle)
    case None =>
      forall k | k in Keys(t)
        ensures !Holds(Get(t, k).value, handle)
      {
        var j :| 0 <= j < |t| && t[j].key == k;
        GetEntry(t, j);
      }
    case Some(i) =>
      GetEntry(t, i);
      forall k | k in Keys(t) && Holds(Get(t, k).value, handle)
        ensures t[i].key <= k
      {
        var j :| 0 <= j < |t| && t[j].key == k;
        GetEntry(t, j);
      }
  }

  /**
   * Two registries with the same ids, whose entries hold the link under the
   * same ids, give the same reverse lookup.
   */
  lemma SameHoldersSameId(a: Table<Slot>, b: Table<Slot>, handle: nat)
    requires Keys(a) == Keys(b)
    requires forall k :: k in Keys(a) ==> (Holds(Get(a, k).value, handle) <==> Holds(Get(b, k).value, handle))
    ensures LinkIdOf(a, handle) == LinkIdOf(b, handle)
  {
    LinkIdOfIsLeastHolder(a, handle);
    LinkIdOfIsLeastHolder(b, handle);
  }

  /** `toDtoProtocol`. */
  function ToDtoProtocol(p: Protocol): (d: DtoProtocol)
    ensures d == DtoMavLink1 <==> p == MavLink1
    ensures d == DtoMavLink2 <==> p == MavLink2
    ensures d == UnknownProtocol <==> p == Unknown
  {
    match p
    case MavLink1 => DtoMavLink1
    case MavLink2 => DtoMavLink2
    case Unknown => UnknownProtocol
  }

  /**
   * `onMavLinkStatisticsChanged`: forwarded with the id found by reverse
   * lookup; dropped when that id is 0, the lookup's "not found" value.
   */
  function OnMavLinkStatisticsChanged(w: Worker, handle: nat, packetsReceived: int, packetsDrops: int): (r: seq<Event>)
    ensures LinkIdOf(w.links, handle) == 0 ==> r == []
    ensures LinkIdOf(w.links, handle) != 0 ==>
              r == [MavLinkStatisticsChanged(LinkIdOf(w.links, handle), packetsReceived, packetsDrops)]
  {
    var id := LinkIdOf(w.links, handle);
    if id == 0 then [] else [MavLinkStatisticsChanged(id, packetsReceived, packetsDrops)]
  }

  /** `onMavLinkProtocolChanged`: as above, with the protocol translated. */
  function OnMavLinkProtocolChanged(w: Worker, handle: nat, protocol: Protocol): (r: seq<Event>)
    ensures LinkIdOf(w.links, handle) == 0 ==> r == []
    ensures LinkIdOf(w.links, handle) != 0 ==>
              r == [MavLinkProtocolChanged(LinkIdOf(w.links, handle), ToDtoProtocol(protocol))]
  {
    var id := LinkIdOf(w.links, handle);
    if id == 0 then [] else [MavLinkProtocolChanged(id, ToDtoProtocol(protocol))]
  }

  /**
   * `addCommunicatorImpl` connects each telemetry signal of a communicator
   * to its slot twice (the two connect blocks are identical), so one signal
   * from a registered communicator runs the slot twice. Signals from a
   * communicator that is not registered reach no slot.
   */
  const SlotConnections: nat := 2

  /** A communicator's `mavLinkStatisticsChanged` as the worker's listeners see it. */
  function DeliverStatistics(w: Worker, c: CommId, handle: nat, packetsReceived: int, packetsDrops: int): (r: seq<Event>)
    ensures c !in w.comms ==> r == []
    ensures c in w.comms && LinkIdOf(w.links, handle) != 0 ==>
              |r| == SlotConnections
              && forall i :: 0 <= i < |r| ==>
                   r[i] == MavLinkStatisticsChanged(LinkIdOf(w.links, handle), packetsReceived, packetsDrops)
    ensures LinkIdOf(w.links, handle) == 0 ==> r == []
  {
    if c !in w.comms then []
    else Repeat(OnMavLinkStatisticsChanged(w, handle, packetsReceived, packetsDrops), SlotConnections)
  }

  /** A communicator's `mavLinkProtocolChanged` as the worker's listeners see it. */
  function DeliverProtocol(w: Worker, c: CommId, handle: nat, protocol: Protocol): (r: seq<Event>)
    ensures c !in w.comms ==> r == []
    ensures c in w.comms && LinkIdOf(w.links, handle) != 0 ==>
              |r| == SlotConnections
              && forall i :: 0 <= i < |r| ==>
                   r[i] == MavLinkProtocolChanged(LinkIdOf(w.links, handle), ToDtoProtocol(protocol))
    ensures LinkIdOf(w.links, handle) == 0 ==> r == []
  {
    if c !in w.comms then []
    else Repeat(OnMavLinkProtocolChanged(w, handle, protocol), SlotConnections)
  }

  /** `es` run `n` times over. */
  function Repeat(es: seq<Event>, n: nat): (r: seq<Event>)
    ensures |r| == |es| * n
    ensures |es| == 1 ==> forall i :: 0 <= i < |r| ==> r[i] == es[0]
    ensures es == [] ==> r == []
  {
    if n == 0 then [] else es + Repeat(es, n - 1)
  }

  // ---------------------------------------------------------------------
  // Properties over several operations

  /** A mutating request the worker's queue delivers. */
  datatype Request =
    | AddCommunicatorRequest(c: Option<CommId>)
    | DeleteCommunicatorRequest(c: Option<CommId>)
    | UpdateLinkRequest(id: int, created: Option<Link>, update: Link -> Link, autoconnect: bool, connectResult: bool)
    | RemoveLinkRequest(id: int)
    | SetLinkConnectedRequest(id: int, connected: bool)

  function Apply(w: Worker, q: Request): Worker
  {
    match q
    case AddCommunicatorRequest(c) => AddCommunicator(w, c)
    case DeleteCommunicatorRequest(c) => DeleteCommunicator(w, c)
    case UpdateLinkRequest(id, created, update, autoconnect, connectResult) =>
      UpdateLink(w, id, created, update, autoconnect, connectResult).worker
    case RemoveLinkRequest(id) => RemoveLink(w, id)
    case SetLinkConnectedRequest(id, connected) => SetLinkConnected(w, id, connected)
  }

  /** Handle the requests `qs` in order. */
  function Run(w: Worker, qs: seq<Request>): Worker
    decreases |qs|
  {
    if |qs| == 0 then w else Run(Apply(w, qs[0]), qs[1..])
  }

  /**
   * The wiring invariant holds after every request of any interleaving of
   * communicator and link registrations and removals.
   */
  lemma {:induction false} RunKeepsWiring(w: Worker, qs: seq<Request>)
    requires Valid(w)
    ensures Valid(Run(w, qs))
    decreases |qs|
  {
    if |qs| > 0 {
      var next := Apply(w, qs[0]);
      assert Valid(next) by {
        match qs[0]
        case AddCommunicatorRequest(c) =>
        case DeleteCommunicatorRequest(c) =>
        case UpdateLinkRequest(id, created, update, autoconnect, connectResult) =>
        case RemoveLinkRequest(id) =>
        case SetLinkConnectedRequest(id, connected) =>
      }
      RunKeepsWiring(next, qs[1..]);
    }
  }

  /** Registering a communicator twice is the same as registering it once. */
  lemma AddCommunicatorIdempotent(w: Worker, c: Option<CommId>)
    ensures AddCommunicator(AddCommunicator(w, c), c) == AddCommunicator(w, c)
  {
  }

  /**
   * `setLinkConnected` for an id the registry does not hold leaves a null
   * entry behind. From then on the id counts as registered but carries no
   * link: `updateLink` for it never creates the link again, and the next
   * statistics tick would dereference the null pointer.
   */
  lemma UnknownIdLeavesNullEntry(w: Worker, id: int, connected: bool, created: Link,
                                 update: Link -> Link, autoconnect: bool, connectResult: bool)
    requires Valid(w) && id !in Keys(w.links)
    ensures var p := SetLinkConnected(w, id, connected);
      && p != w
      && Valid(p)
      && id in Keys(p.links) && id !in LiveIds(p.links)
      && !TickSafe(p)
      && UpdateLink(p, id, Some(created), update, autoconnect, connectResult) == Outcome(p, [])
  {
    var p := SetLinkConnected(w, id, connected);
    GetFound(p.links, id);
    var i :| 0 <= i < |p.links| && p.links[i].key == id && p.links[i].value == Null;
    assert !TickSafe(p);
    var u := UpdateLink(p, id, Some(created), update, autoconnect, connectResult);
    assert Keys(u.worker.links) == Keys(p.links);
    OrderedMapEqual(u.worker.links, p.links);
  }

  /** Two sorted tables with the same lookups are equal. */
  lemma {:induction false} OrderedMapEqual(a: Table<Slot>, b: Table<Slot>)
    requires forall k :: Get(a, k) == Get(b, k)
    ensures a == b
    decreases |a| + |b|
  {
    if |a| > 0 && |b| > 0 {
      Uncons(a);
      Uncons(b);
      GetEntry(a, 0);
      GetEntry(b, 0);
      FirstIsLeast(a);
      FirstIsLeast(b);
      assert a[0].key == b[0].key;
      ConsFacts(a[0], a[1..]);
      ConsFacts(b[0], b[1..]);
      forall k
        ensures Get(a[1..], k) == Get(b[1..], k)
      {
        if k == a[0].key {
          assert k !in Keys(a[1..]) && k !in Keys(b[1..]);
        }
      }
      OrderedMapEqual(a[1..], b[1..]);
    } else if |a| > 0 {
      GetEntry(a, 0);
    } else if |b| > 0 {
      GetEntry(b, 0);
    }
  }

  /**
   * Take semantics: the tick reports the counters as they stood, and a
   * second tick with no traffic in between reports zero for every link.
   */
  lemma SecondTickReportsZero(w: Worker, now1: int, now2: int)
    requires TickSafe(w)
    ensures var first := Tick(w, now1);
      var second := Tick(first.worker, now2);
      && |second.events| == |first.events| == |w.links|
      && (forall i :: 0 <= i < |w.links| ==>
            first.events[i].bytesReceived == w.links[i].value.link.received
            && first.events[i].bytesSent == w.links[i].value.link.sent)
      && (forall i :: 0 <= i < |second.events| ==>
            second.events[i].id == w.links[i].key
            && second.events[i].bytesReceived == 0 && second.events[i].bytesSent == 0)
  {
  }

  /**
   * A link registered only under id 0 is looked up as 0, the "not found"
   * value, so its telemetry is never forwarded.
   */
  lemma LinkUnderZeroIsDropped(w: Worker, l: Link, packetsReceived: int, packetsDrops: int, p: Protocol)
    requires Get(w.links, 0) == Some(Live(l))
    requires forall i :: 0 <= i < |w.links| && w.links[i].key != 0 ==>
               !(w.links[i].value.Live? && w.links[i].value.link.handle == l.handle)
    ensures OnMavLinkStatisticsChanged(w, l.handle, packetsReceived, packetsDrops) == []
    ensures OnMavLinkProtocolChanged(w, l.handle, p) == []
  {
    GetFound(w.links, 0);
  }

  /** A link registered under one non-zero id has its telemetry forwarded under that id. */
  lemma LinkUnderIdIsForwarded(w: Worker, id: int, l: Link, packetsReceived: int, packetsDrops: int, p: Protocol)
    requires id != 0
    requires Get(w.links, id) == Some(Live(l))
    requires forall i :: 0 <= i < |w.links| && w.links[i].key != id ==>
               !(w.links[i].value.Live? && w.links[i].value.link.handle == l.handle)
    ensures OnMavLinkStatisticsChanged(w, l.handle, packetsReceived, packetsDrops) ==
              [MavLinkStatisticsChanged(id, packetsReceived, packetsDrops)]
    ensures OnMavLinkProtocolChanged(w, l.handle, p) == [MavLinkProtocolChanged(id, ToDtoProtocol(p))]
  {
    GetFound(w.links, id);
  }

  /**
   * The factory's in-place update of a registered link never changes which
   * id the reverse lookup finds for any link, so telemetry is forwarded
   * under the same id before and after.
   */
  lemma UpdateKeepsLinkId(w: Worker, id: int, created: Option<Link>, update: Link -> Link,
                          autoconnect: bool, connectResult: bool, handle: nat)
    requires id in Keys(w.links)
    ensures LinkIdOf(UpdateLink(w, id, created, update, autoconnect, connectResult).worker.links, handle) ==
            LinkIdOf(w.links, handle)
  {
    var r := UpdateLink(w, id, created, update, autoconnect, connectResult).worker;
    forall k | k in Keys(w.links)
      ensures Holds(Get(w.links, k).value, handle) <==> Holds(Get(r.links, k).value, handle)
    {
    }
    SameHoldersSameId(w.links, r.links, handle);
  }
}
