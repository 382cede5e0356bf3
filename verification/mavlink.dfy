/**
 * The slice of the MAVLink common message set that the mission and
 * system-status handlers read and write: the MAV_CMD, MAV_FRAME,
 * MAV_MISSION_RESULT and MAV_SYS_STATUS_SENSOR values, message ids, and the
 * decoded message records. Packing to and from bytes is not modelled.
 */
module Mavlink {

  type uint8 = x: int | 0 <= x < 0x100
  type int8 = x: int | -0x80 <= x < 0x80
  type uint16 = x: int | 0 <= x < 0x1_0000
  type int16 = x: int | -0x8000 <= x < 0x8000

  /** C conversion of an unsigned 16-bit value to `uint8_t`: keep the low byte. */
  function ToUint8(x: uint16): (r: uint8)
    ensures x < 0x100 ==> r == x
    ensures (r - x) % 0x100 == 0
  {
    x % 0x100
  }

  /** C conversion of a non-negative `int` to `uint16_t`: keep the low 16 bits. */
  function ToUint16(x: nat): (r: uint16)
    ensures x < 0x1_0000 ==> r == x
    ensures (r - x) % 0x1_0000 == 0
  {
    x % 0x1_0000
  }

  // MAV_CMD
  const MAV_CMD_NAV_WAYPOINT: uint16 := 16
  const MAV_CMD_NAV_LOITER_UNLIM: uint16 := 17
  const MAV_CMD_NAV_LOITER_TURNS: uint16 := 18
  const MAV_CMD_NAV_RETURN_TO_LAUNCH: uint16 := 20
  const MAV_CMD_NAV_LAND: uint16 := 21
  const MAV_CMD_NAV_TAKEOFF: uint16 := 22
  const MAV_CMD_NAV_CONTINUE_AND_CHANGE_ALT: uint16 := 30
  const MAV_CMD_NAV_LOITER_TO_ALT: uint16 := 31

  // MAV_FRAME
  const MAV_FRAME_GLOBAL: uint8 := 0
  const MAV_FRAME_GLOBAL_RELATIVE_ALT: uint8 := 3

  // MAV_MISSION_RESULT
  const MAV_MISSION_ACCEPTED: uint8 := 0

  // MAV_SYS_STATUS_SENSOR
  const MAV_SYS_STATUS_SENSOR_3D_GYRO: bv32 := 0x1
  const MAV_SYS_STATUS_SENSOR_3D_ACCEL: bv32 := 0x2
  const MAV_SYS_STATUS_SENSOR_3D_MAG: bv32 := 0x4
  const MAV_SYS_STATUS_SENSOR_ABSOLUTE_PRESSURE: bv32 := 0x8
  const MAV_SYS_STATUS_SENSOR_DIFFERENTIAL_PRESSURE: bv32 := 0x10
  const MAV_SYS_STATUS_SENSOR_GPS: bv32 := 0x20
  const MAV_SYS_STATUS_SENSOR_LASER_POSITION: bv32 := 0x100
  const MAV_SYS_STATUS_AHRS: bv32 := 0x20_0000

  // Message ids
  const MAVLINK_MSG_ID_SYS_STATUS: nat := 1
  const MAVLINK_MSG_ID_MISSION_ITEM: nat := 39
  const MAVLINK_MSG_ID_MISSION_REQUEST: nat := 40
  const MAVLINK_MSG_ID_MISSION_REQUEST_LIST: nat := 43
  const MAVLINK_MSG_ID_MISSION_COUNT: nat := 44
  const MAVLINK_MSG_ID_MISSION_ACK: nat := 47

  /** Message ids this model gives no payload of its own. */
  type OtherMsgId = m: nat | m !in {1, 39, 40, 44, 47}

  /**
   * A single-precision wire value. Only the position fields x and y ever
   * carry NaN here: it is how an unset coordinate travels.
   */
  datatype Float = Num(value: real) | NaN

  /** MISSION_ITEM payload (target system and component left out). */
  datatype WireItem = WireItem(
    sequence: uint16,
    command: uint16,
    frame: uint8,
    current: uint8,
    autocontinue: uint8,
    x: Float,
    y: Float,
    z: real,
    param1: real,
    param2: real,
    param3: real,
    param4: real)

  /** SYS_STATUS payload. */
  datatype SysStatusFields = SysStatusFields(
    present: bv32,
    enabled: bv32,
    health: bv32,
    voltage: uint16,
    current: int16,
    remaining: int8)

  /** A decoded inbound payload, one variant per message kind the handlers read. */
  datatype Payload =
    | CountPayload(count: uint16)
    | ItemPayload(item: WireItem)
    | RequestPayload(sequence: uint16)
    | AckPayload(ackType: uint8)
    | StatusPayload(status: SysStatusFields)
    | OtherPayload(msgid: OtherMsgId)

  /** An inbound message: sender system id and payload. */
  datatype Message = Message(sysid: uint8, payload: Payload)

  /** The wire message id of a payload. */
  function MsgId(p: Payload): (id: nat)
    ensures id == MAVLINK_MSG_ID_SYS_STATUS <==> p.StatusPayload?
    ensures id == MAVLINK_MSG_ID_MISSION_COUNT <==> p.CountPayload?
    ensures id == MAVLINK_MSG_ID_MISSION_ITEM <==> p.ItemPayload?
    ensures id == MAVLINK_MSG_ID_MISSION_REQUEST <==> p.RequestPayload?
    ensures id == MAVLINK_MSG_ID_MISSION_ACK <==> p.AckPayload?
  {
    match p
    case CountPayload(_) => MAVLINK_MSG_ID_MISSION_COUNT
    case ItemPayload(_) => MAVLINK_MSG_ID_MISSION_ITEM
    case RequestPayload(_) => MAVLINK_MSG_ID_MISSION_REQUEST
    case AckPayload(_) => MAVLINK_MSG_ID_MISSION_ACK
    case StatusPayload(_) => MAVLINK_MSG_ID_SYS_STATUS
    case OtherPayload(m) => m
  }

  /** An outbound message, addressed to the vehicle with system id `target`. */
  datatype Outbound =
    | RequestList(target: uint8)
    | RequestItem(target: uint8, sequence: uint16)
    | Count(target: uint8, count: uint16)
    | Item(target: uint8, item: WireItem)
    | Ack(target: uint8, ackType: uint8)
}
