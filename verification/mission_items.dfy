/**
 * Mission items and their MAVLink codec: the command translation table
 * (`decodeCommand` / `encodeCommand`) and the kind-conditional mapping
 * between a MISSION_ITEM payload and a tagged mission item.
 *
 * The source keeps items in a class hierarchy; here it is one variant type.
 * The hierarchy assumed (its headers are not part of this model) is:
 * altitude items are Continue plus the position items; position items are
 * Home, Waypoint, Takeoff, Landing and Loiter; Return and unknown items
 * carry neither altitude nor position.
 */
module MissionItems {
  import opened Mavlink

  /** `MissionItem::Command`. */
  datatype Command = Home | Waypoint | Takeoff | Loiter | Continue | Return | Landing | UnknownCommand

  datatype Altitude = Altitude(altitude: real, relative: bool)

  /** A coordinate pair; `NaN` in either component is the "unset" sentinel. */
  datatype Position = Position(latitude: Float, longitude: Float)

  /** The kind-specific attributes of an item. */
  datatype ItemBody =
    | HomeItem(alt: Altitude, pos: Position)
    | WaypointItem(alt: Altitude, pos: Position, acceptanceRadius: real)
    | TakeoffItem(alt: Altitude, pos: Position, pitch: real, azimuth: real)
    | LandingItem(alt: Altitude, pos: Position, azimuth: real)
    | LoiterItem(alt: Altitude, pos: Position, radius: real)
    | ContinueItem(alt: Altitude, climb: int)
    | ReturnItem
    | UnknownItem
  {
    /** The command tag of the item class. */
    function Command(): Command
    {
      match this
      case HomeItem(_, _) => Home
      case WaypointItem(_, _, _) => Waypoint
      case TakeoffItem(_, _, _, _) => Takeoff
      case LandingItem(_, _, _) => Landing
      case LoiterItem(_, _, _) => Loiter
      case ContinueItem(_, _) => Continue
      case ReturnItem => Return
      case UnknownItem => UnknownCommand
    }

    /** The item is an `AltitudeMissionItem`. */
    predicate HasAltitude()
    {
      !ReturnItem? && !UnknownItem?
    }

    /** The item is a `PositionMissionItem`. */
    predicate HasPosition()
    {
      HasAltitude() && !ContinueItem?
    }
  }

  /** A mission item: the shared "is current" flag plus its kind-specific body. */
  datatype MissionItem = MissionItem(current: bool, body: ItemBody)

  /** The wire commands `DecodeCommand` recognises. */
  const KnownCommands: set<uint16> := {
    MAV_CMD_NAV_TAKEOFF, MAV_CMD_NAV_WAYPOINT, MAV_CMD_NAV_LOITER_UNLIM,
    MAV_CMD_NAV_LOITER_TURNS, MAV_CMD_NAV_CONTINUE_AND_CHANGE_ALT,
    MAV_CMD_NAV_RETURN_TO_LAUNCH, MAV_CMD_NAV_LAND }

  /**
   * `decodeCommand`: the item kind a wire command denotes. The sequence
   * argument is a `uint8_t` in the source, so callers pass a truncated value.
   */
  function DecodeCommand(command: uint16, index: uint8): (k: Command)
    ensures k == Takeoff <==> command == MAV_CMD_NAV_TAKEOFF
    ensures k == Home <==> command == MAV_CMD_NAV_WAYPOINT && index == 0
    ensures k == Waypoint <==> command == MAV_CMD_NAV_WAYPOINT && index > 0
    ensures k == Loiter <==> command == MAV_CMD_NAV_LOITER_UNLIM || command == MAV_CMD_NAV_LOITER_TURNS
    ensures k == Continue <==> command == MAV_CMD_NAV_CONTINUE_AND_CHANGE_ALT
    ensures k == Return <==> command == MAV_CMD_NAV_RETURN_TO_LAUNCH
    ensures k == Landing <==> command == MAV_CMD_NAV_LAND
    ensures k == UnknownCommand <==> command !in KnownCommands
  {
    if command == MAV_CMD_NAV_TAKEOFF then Takeoff
    else if command == MAV_CMD_NAV_WAYPOINT then (if index > 0 then Waypoint else Home)
    else if command == MAV_CMD_NAV_LOITER_UNLIM || command == MAV_CMD_NAV_LOITER_TURNS then Loiter
    else if command == MAV_CMD_NAV_CONTINUE_AND_CHANGE_ALT then Continue
    else if command == MAV_CMD_NAV_RETURN_TO_LAUNCH then Return
    else if command == MAV_CMD_NAV_LAND then Landing
    else UnknownCommand
  }

  /** `encodeCommand`: the wire command sent for an item kind. */
  function EncodeCommand(k: Command): (command: uint16)
    ensures command == 0 <==> k == UnknownCommand
    ensures command == MAV_CMD_NAV_WAYPOINT <==> k == Home || k == Waypoint
    ensures command == MAV_CMD_NAV_LOITER_TO_ALT <==> k == Loiter
    ensures command == MAV_CMD_NAV_TAKEOFF <==> k == Takeoff
    ensures command == MAV_CMD_NAV_LAND <==> k == Landing
    ensures command == MAV_CMD_NAV_CONTINUE_AND_CHANGE_ALT <==> k == Continue
    ensures command == MAV_CMD_NAV_RETURN_TO_LAUNCH <==> k == Return
    ensures k != UnknownCommand && k != Loiter ==> command in KnownCommands
    ensures command !in KnownCommands <==> k == UnknownCommand || k == Loiter
  {
    match k
    case Takeoff => MAV_CMD_NAV_TAKEOFF
    case Home => MAV_CMD_NAV_WAYPOINT
    case Waypoint => MAV_CMD_NAV_WAYPOINT
    case Loiter => MAV_CMD_NAV_LOITER_TO_ALT
    case Continue => MAV_CMD_NAV_CONTINUE_AND_CHANGE_ALT
    case Return => MAV_CMD_NAV_RETURN_TO_LAUNCH
    case Landing => MAV_CMD_NAV_LAND
    case UnknownCommand => 0
  }

  /**
   * Decoding an encoded kind gives the kind back, except that Home and
   * Waypoint are told apart by the sequence number alone, and Loiter is
   * sent as LOITER_TO_ALT, which the decoder does not know.
   */
  lemma CommandRoundTrip(k: Command, index: uint8)
    ensures k in {Takeoff, Continue, Return, Landing, UnknownCommand} ==>
              DecodeCommand(EncodeCommand(k), index) == k
    ensures k == Home || k == Waypoint ==>
              DecodeCommand(EncodeCommand(k), index) == (if index == 0 then Home else Waypoint)
    ensures k == Loiter ==> DecodeCommand(EncodeCommand(k), index) == UnknownCommand
  {
  }

  /**
   * Encoding a decoded wire command gives the command back for every
   * recognised command except the two loiter variants, which collapse to
   * LOITER_TO_ALT; unrecognised commands come back as 0.
   */
  lemma WireCommandRoundTrip(command: uint16, index: uint8)
    ensures command in KnownCommands - {MAV_CMD_NAV_LOITER_UNLIM, MAV_CMD_NAV_LOITER_TURNS} ==>
              EncodeCommand(DecodeCommand(command, index)) == command
    ensures command == MAV_CMD_NAV_LOITER_UNLIM || command == MAV_CMD_NAV_LOITER_TURNS ==>
              EncodeCommand(DecodeCommand(command, index)) == MAV_CMD_NAV_LOITER_TO_ALT
    ensures command !in KnownCommands ==> EncodeCommand(DecodeCommand(command, index)) == 0
  {
  }

  /**
   * The item handler passes the 16-bit wire sequence to the 8-bit parameter
   * of `decodeCommand`, so a waypoint at sequence 256 decodes as Home.
   */
  lemma WaypointAtSequence256IsHome()
    ensures DecodeCommand(MAV_CMD_NAV_WAYPOINT, ToUint8(256)) == Home
    ensures DecodeCommand(MAV_CMD_NAV_WAYPOINT, ToUint8(255)) == Waypoint
  {
  }

  /** The "unset" coordinate sentinel. */
  const Unset: Position := Position(NaN, NaN)

  /**
   * How a wire position is read: the pair (0, 0) means "no position" and
   * becomes the unset sentinel; any other pair is taken as it is.
   */
  function ReadPosition(x: Float, y: Float): (p: Position)
    ensures x == Num(0.0) && y == Num(0.0) ==> p == Unset
    ensures !(x == Num(0.0) && y == Num(0.0)) ==> p.latitude == x && p.longitude == y
  {
    if x == Num(0.0) && y == Num(0.0) then Unset else Position(x, y)
  }

  /**
   * The climb parameter as the source writes it: the first test is on the
   * truthiness of `climb`, so every non-zero climb, negative ones included,
   * is sent as 1 and the -1 branch is never taken.
   */
  function ClimbParam(climb: int): (p: real)
    ensures climb != 0 ==> p == 1.0
    ensures climb == 0 ==> p == 0.0
  {
    if climb != 0 then 1.0 else if climb < 0 then -1.0 else 0.0
  }

  lemma NegativeClimbEncodesAsOne(climb: int)
    requires climb < 0
    ensures ClimbParam(climb) == 1.0
    ensures ClimbParam(climb) != -1.0
  {
  }

  /** Writes the altitude fields of an `AltitudeMissionItem`. */
  function WriteAltitude(w: WireItem, a: Altitude): (r: WireItem)
    ensures r.frame == (if a.relative then MAV_FRAME_GLOBAL_RELATIVE_ALT else MAV_FRAME_GLOBAL)
    ensures r.z == a.altitude
    ensures r == w.(frame := r.frame, z := r.z)
  {
    w.(frame := if a.relative then MAV_FRAME_GLOBAL_RELATIVE_ALT else MAV_FRAME_GLOBAL,
       z := a.altitude)
  }

  /**
   * The MISSION_ITEM built by `sendMissionItem` for `item` at position `index` of
   * a mission of `count` items. The source fills a stack struct it never
   * initialises; `scratch` stands for its prior contents, and every field
   * the source does not write keeps its `scratch` value. The `current`
   * field is one of those: it is never written.
   */
  function EncodeItem(item: MissionItem, index: uint16, count: nat, scratch: WireItem): (w: WireItem)
    requires index < count
    ensures w.sequence == index
    ensures w.autocontinue == 1 <==> index < count - 1
    ensures w.autocontinue == 0 <==> index == count - 1
    ensures w.command == EncodeCommand(item.body.Command())
    ensures w.current == scratch.current
    ensures item.body.HasAltitude() ==>
              && (w.frame == MAV_FRAME_GLOBAL_RELATIVE_ALT <==> item.body.alt.relative)
              && (w.frame == MAV_FRAME_GLOBAL <==> !item.body.alt.relative)
              && w.z == item.body.alt.altitude
    ensures !item.body.HasAltitude() ==> w.frame == scratch.frame && w.z == scratch.z
    ensures item.body.HasPosition() ==>
              w.x == item.body.pos.latitude && w.y == item.body.pos.longitude
    ensures !item.body.HasPosition() ==> w.x == scratch.x && w.y == scratch.y
    ensures item.body.TakeoffItem? ==> w.param1 == item.body.pitch && w.param4 == item.body.azimuth
    ensures item.body.LandingItem? ==> w.param4 == item.body.azimuth
    ensures item.body.WaypointItem? ==> w.param2 == item.body.acceptanceRadius
    ensures item.body.LoiterItem? ==> w.param3 == item.body.radius
    ensures item.body.ContinueItem? ==> w.param1 == (if item.body.climb != 0 then 1.0 else 0.0)
    ensures !item.body.TakeoffItem? && !item.body.ContinueItem? ==> w.param1 == scratch.param1
    ensures !item.body.WaypointItem? ==> w.param2 == scratch.param2
    ensures !item.body.LoiterItem? ==> w.param3 == scratch.param3
    ensures !item.body.TakeoffItem? && !item.body.LandingItem? ==> w.param4 == scratch.param4
  {
    var base := scratch.(
      sequence := index,
      autocontinue := if index < count - 1 then 1 else 0,
      command := EncodeCommand(item.body.Command()));
    match item.body
    case HomeItem(a, p) =>
      WriteAltitude(base, a).(x := p.latitude, y := p.longitude)
    case WaypointItem(a, p, radius) =>
      WriteAltitude(base, a).(x := p.latitude, y := p.longitude, param2 := radius)
    case TakeoffItem(a, p, pitch, azimuth) =>
      WriteAltitude(base, a).(x := p.latitude, y := p.longitude, param1 := pitch, param4 := azimuth)
    case LandingItem(a, p, azimuth) =>
      WriteAltitude(base, a).(x := p.latitude, y := p.longitude, param4 := azimuth)
    case LoiterItem(a, p, radius) =>
      WriteAltitude(base, a).(x := p.latitude, y := p.longitude, param3 := radius)
    case ContinueItem(a, climb) =>
      WriteAltitude(base, a).(param1 := ClimbParam(climb))
    case ReturnItem => base
    case UnknownItem => base
  }

  /**
   * The relative-altitude flag after reading `frame`: the two global frames
   * set it, any other frame leaves the flag as it was.
   */
  function ReadRelative(frame: uint8, prior: bool): (relative: bool)
    ensures frame == MAV_FRAME_GLOBAL_RELATIVE_ALT ==> relative
    ensures frame == MAV_FRAME_GLOBAL ==> !relative
    ensures frame != MAV_FRAME_GLOBAL_RELATIVE_ALT && frame != MAV_FRAME_GLOBAL ==> relative == prior
  {
    if frame == MAV_FRAME_GLOBAL_RELATIVE_ALT then true
    else if frame == MAV_FRAME_GLOBAL then false
    else prior
  }

  /**
   * The item `processMissionItem` builds from a MISSION_ITEM payload.
   * `made` is the item the mission-item factory made for the decoded
   * command; attributes the payload does not set keep their values from it.
   * The azimuth in `param4` and the climb of a Continue item are not read.
   */
  function DecodeItem(w: WireItem, made: ItemBody): (item: MissionItem)
    requires made.Command() == DecodeCommand(w.command, ToUint8(w.sequence))
    ensures item.current <==> w.current != 0
    ensures item.body.Command() == DecodeCommand(w.command, ToUint8(w.sequence))
    ensures item.body.HasAltitude() ==>
              && item.body.alt.altitude == w.z
              && item.body.alt.relative == ReadRelative(w.frame, made.alt.relative)
    ensures item.body.HasPosition() ==> item.body.pos == ReadPosition(w.x, w.y)
    ensures item.body.TakeoffItem? ==> item.body.pitch == w.param1 && item.body.azimuth == made.azimuth
    ensures item.body.LandingItem? ==> item.body.azimuth == made.azimuth
    ensures item.body.WaypointItem? ==> item.body.acceptanceRadius == w.param2
    ensures item.body.LoiterItem? ==> item.body.radius == w.param3
    ensures item.body.ContinueItem? ==> item.body.climb == made.climb
    ensures !item.body.HasAltitude() ==> item.body == made
  {
    var body :=
      match made
      case HomeItem(a, _) =>
        HomeItem(ReadAltitude(w, a), ReadPosition(w.x, w.y))
      case WaypointItem(a, _, _) =>
        WaypointItem(ReadAltitude(w, a), ReadPosition(w.x, w.y), w.param2)
      case TakeoffItem(a, _, _, azimuth) =>
        TakeoffItem(ReadAltitude(w, a), ReadPosition(w.x, w.y), w.param1, azimuth)
      case LandingItem(a, _, azimuth) =>
        LandingItem(ReadAltitude(w, a), ReadPosition(w.x, w.y), azimuth)
      case LoiterItem(a, _, _) =>
        LoiterItem(ReadAltitude(w, a), ReadPosition(w.x, w.y), w.param3)
      case ContinueItem(a, climb) =>
        ContinueItem(ReadAltitude(w, a), climb)
      case ReturnItem => ReturnItem
      case UnknownItem => UnknownItem;
    MissionItem(w.current != 0, body)
  }

  /** The altitude attributes after reading a payload's frame and z. */
  function ReadAltitude(w: WireItem, prior: Altitude): (a: Altitude)
    ensures a.altitude == w.z
    ensures a.relative == ReadRelative(w.frame, prior.relative)
  {
    Altitude(w.z, ReadRelative(w.frame, prior.relative))
  }

  /** The position an item holds after it went out and came back. */
  function Resent(p: Position): Position
  {
    ReadPosition(p.latitude, p.longitude)
  }

  /**
   * Sending an item and reading the payload back. The altitude, the
   * position (up to the (0, 0) marker) and the parameter the payload carries
   * for the item's kind survive; the `current` flag does not (it is read from
   * the uninitialised field); Home and Waypoint swap according to the
   * sequence number; a Loiter item comes back as an unknown item.
   */
  lemma EncodeDecodeItem(item: MissionItem, index: uint16, count: nat,
                         scratch: WireItem, made: ItemBody)
    requires index < count
    requires made.Command() == DecodeCommand(EncodeCommand(item.body.Command()), ToUint8(index))
    ensures var d := DecodeItem(EncodeItem(item, index, count, scratch), made);
      && (d.current <==> scratch.current != 0)
      && (item.body.HasAltitude() && !item.body.LoiterItem? ==>
            d.body.HasAltitude() && d.body.alt == item.body.alt)
      && (item.body.HasPosition() && !item.body.LoiterItem? ==>
            d.body.HasPosition() && d.body.pos == Resent(item.body.pos))
      && (item.body.TakeoffItem? ==>
            d.body == TakeoffItem(item.body.alt, Resent(item.body.pos), item.body.pitch, made.azimuth))
      && (item.body.LandingItem? ==>
            d.body == LandingItem(item.body.alt, Resent(item.body.pos), made.azimuth))
      && (item.body.ContinueItem? ==> d.body == ContinueItem(item.body.alt, made.climb))
      && (item.body.WaypointItem? && ToUint8(index) != 0 ==>
            d.body == WaypointItem(item.body.alt, Resent(item.body.pos), item.body.acceptanceRadius))
      && (item.body.HomeItem? && ToUint8(index) == 0 ==>
            d.body == HomeItem(item.body.alt, Resent(item.body.pos)))
      && (item.body.HomeItem? && ToUint8(index) != 0 ==>
            d.body == WaypointItem(item.body.alt, Resent(item.body.pos), scratch.param2))
      && (item.body.WaypointItem? && ToUint8(index) == 0 ==>
            d.body == HomeItem(item.body.alt, Resent(item.body.pos)))
      && (item.body.LoiterItem? ==> d.body == UnknownItem)
      && (!item.body.HasAltitude() ==> d.body == item.body)
  {
  }

  /** A real position at (0, 0) is indistinguishable from "no position". */
  lemma ZeroPositionBecomesUnset(a: Altitude, radius: real, index: uint16, count: nat,
                                 scratch: WireItem, made: ItemBody)
    requires index < count && ToUint8(index) != 0
    requires made.WaypointItem?
    ensures var item := MissionItem(false, WaypointItem(a, Position(Num(0.0), Num(0.0)), radius));
      DecodeItem(EncodeItem(item, index, count, scratch), made).body.pos == Unset
  {
  }
}
