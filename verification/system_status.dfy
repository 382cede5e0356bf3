/**
 * The SYS_STATUS decoder (`SystemStatusHandler`): the power-system reading
 * and the sensor-availability flags of a vehicle, from the
 * onboard-control-sensors "present" and "enabled" bitmasks. Vehicles are
 * looked up by system id in a registry the handler does not own.
 * `decodeVoltage` and `decodeCurrent` are helpers that are not part of this
 * model; they are passed in as functions.
 */
module SystemStatus {
  import opened Mavlink

  datatype PowerSystem = PowerSystem(voltage: real, current: real, remaining: int)

  /** A vehicle as far as the decoder writes it; aerial vehicles have four more flags. */
  datatype Vehicle =
    | BaseVehicle(power: PowerSystem, compass: bool, gps: bool, ins: bool)
    | AerialVehicle(power: PowerSystem, compass: bool, gps: bool, ins: bool,
                    barometer: bool, airSpeed: bool, ahrs: bool, rangeFinder: bool)

  /** A sensor counts as available when its bit is set in both masks. */
  predicate Available(present: bv32, enabled: bv32, sensor: bv32)
  {
    present & sensor != 0 && enabled & sensor != 0
  }

  /** Bit `n` of `mask`. */
  predicate Bit(mask: bv32, n: bv32)
    requires n < 32
  {
    (mask >> n) & 1 == 1
  }

  /**
   * The vehicle after a SYS_STATUS payload: a new power system from the
   * decoded voltage and current and the remaining percentage as sent, and
   * every availability flag recomputed. The health mask is not read.
   */
  function Decode(v: Vehicle, st: SysStatusFields,
                  decodeVoltage: uint16 -> real, decodeCurrent: int16 -> real): (u: Vehicle)
    ensures u.AerialVehicle? <==> v.AerialVehicle?
    ensures u.power == PowerSystem(decodeVoltage(st.voltage), decodeCurrent(st.current), st.remaining)
    ensures u.compass <==> Available(st.present, st.enabled, MAV_SYS_STATUS_SENSOR_3D_MAG)
    ensures u.gps <==> Available(st.present, st.enabled, MAV_SYS_STATUS_SENSOR_GPS)
    ensures u.ins <==> Available(st.present, st.enabled, MAV_SYS_STATUS_SENSOR_3D_ACCEL)
                       && Available(st.present, st.enabled, MAV_SYS_STATUS_SENSOR_3D_GYRO)
    ensures u.AerialVehicle? ==>
              && (u.barometer <==> Available(st.present, st.enabled, MAV_SYS_STATUS_SENSOR_ABSOLUTE_PRESSURE))
              && (u.airSpeed <==> Available(st.present, st.enabled, MAV_SYS_STATUS_SENSOR_DIFFERENTIAL_PRESSURE))
              && (u.ahrs <==> Available(st.present, st.enabled, MAV_SYS_STATUS_AHRS))
              && (u.rangeFinder <==> Available(st.present, st.enabled, MAV_SYS_STATUS_SENSOR_LASER_POSITION))
  {
    var p := st.present;
    var e := st.enabled;
    var power := PowerSystem(decodeVoltage(st.voltage), decodeCurrent(st.current), st.remaining);
    var compass := Available(p, e, MAV_SYS_STATUS_SENSOR_3D_MAG);
    var gps := Available(p, e, MAV_SYS_STATUS_SENSOR_GPS);
    var ins := Available(p, e, MAV_SYS_STATUS_SENSOR_3D_ACCEL) && Available(p, e, MAV_SYS_STATUS_SENSOR_3D_GYRO);
    match v
    case BaseVehicle(_, _, _, _) => BaseVehicle(power, compass, gps, ins)
    case AerialVehicle(_, _, _, _, _, _, _, _) =>
      AerialVehicle(power, compass, gps, ins,
                    Available(p, e, MAV_SYS_STATUS_SENSOR_ABSOLUTE_PRESSURE),
                    Available(p, e, MAV_SYS_STATUS_SENSOR_DIFFERENTIAL_PRESSURE),
                    Available(p, e, MAV_SYS_STATUS_AHRS),
                    Available(p, e, MAV_SYS_STATUS_SENSOR_LASER_POSITION))
  }

  /**
   * `processMessage`: only a SYS_STATUS for a registered vehicle changes
   * anything, and then only that vehicle.
   */
  function ProcessMessage(vehicles: map<uint8, Vehicle>, msg: Message,
                          decodeVoltage: uint16 -> real, decodeCurrent: int16 -> real): (r: map<uint8, Vehicle>)
    ensures MsgId(msg.payload) != MAVLINK_MSG_ID_SYS_STATUS ==> r == vehicles
    ensures msg.sysid !in vehicles ==> r == vehicles
    ensures r.Keys == vehicles.Keys
    ensures forall id :: id in vehicles && id != msg.sysid ==> r[id] == vehicles[id]
    ensures msg.payload.StatusPayload? && msg.sysid in vehicles ==>
              r[msg.sysid] == Decode(vehicles[msg.sysid], msg.payload.status, decodeVoltage, decodeCurrent)
  {
    if !msg.payload.StatusPayload? then vehicles
    else if msg.sysid !in vehicles then vehicles
    else vehicles[msg.sysid := Decode(vehicles[msg.sysid], msg.payload.status, decodeVoltage, decodeCurrent)]
  }

  /** A MISSION_REQUEST_LIST, like every message other than SYS_STATUS, changes no vehicle. */
  lemma RequestListIgnored(vehicles: map<uint8, Vehicle>, sysid: uint8,
                           decodeVoltage: uint16 -> real, decodeCurrent: int16 -> real)
    ensures ProcessMessage(vehicles, Message(sysid, OtherPayload(MAVLINK_MSG_ID_MISSION_REQUEST_LIST)),
                           decodeVoltage, decodeCurrent) == vehicles
  {
  }

  /**
   * The flags against the bit positions of MAV_SYS_STATUS_SENSOR: gyro 0,
   * accelerometer 1, magnetometer 2, absolute pressure 3, differential
   * pressure 4, GPS 5, laser position 8, AHRS 21.
   */
  lemma DecodeByBitPosition(v: Vehicle, st: SysStatusFields,
                            decodeVoltage: uint16 -> real, decodeCurrent: int16 -> real)
    ensures var u := Decode(v, st, decodeVoltage, decodeCurrent);
      var p := st.present;
      var e := st.enabled;
      && (u.compass <==> Bit(p, 2) && Bit(e, 2))
      && (u.gps <==> Bit(p, 5) && Bit(e, 5))
      && (u.ins <==> Bit(p, 0) && Bit(e, 0) && Bit(p, 1) && Bit(e, 1))
      && (u.AerialVehicle? ==>
            && (u.barometer <==> Bit(p, 3) && Bit(e, 3))
            && (u.airSpeed <==> Bit(p, 4) && Bit(e, 4))
            && (u.ahrs <==> Bit(p, 21) && Bit(e, 21))
            && (u.rangeFinder <==> Bit(p, 8) && Bit(e, 8)))
  {
  }

  /** Two statuses agree on the bits of `sensor` in both masks. */
  predicate Agree(st1: SysStatusFields, st2: SysStatusFields, sensor: bv32)
  {
    st1.present & sensor == st2.present & sensor && st1.enabled & sensor == st2.enabled & sensor
  }

  /**
   * Each flag depends on its own bits only: two statuses whose masks agree
   * on a sensor's bits give the same flag for it, whatever the other bits,
   * the health mask and the battery fields hold.
   */
  lemma FlagsDependOnOwnBits(v: Vehicle, st1: SysStatusFields, st2: SysStatusFields,
                             decodeVoltage: uint16 -> real, decodeCurrent: int16 -> real)
    ensures var u1 := Decode(v, st1, decodeVoltage, decodeCurrent);
      var u2 := Decode(v, st2, decodeVoltage, decodeCurrent);
      && (Agree(st1, st2, MAV_SYS_STATUS_SENSOR_3D_MAG) ==> u1.compass == u2.compass)
      && (Agree(st1, st2, MAV_SYS_STATUS_SENSOR_GPS) ==> u1.gps == u2.gps)
      && (Agree(st1, st2, MAV_SYS_STATUS_SENSOR_3D_ACCEL) && Agree(st1, st2, MAV_SYS_STATUS_SENSOR_3D_GYRO) ==> u1.ins == u2.ins)
      && (u1.AerialVehicle? ==>
            && (Agree(st1, st2, MAV_SYS_STATUS_SENSOR_ABSOLUTE_PRESSURE) ==> u1.barometer == u2.barometer)
            && (Agree(st1, st2, MAV_SYS_STATUS_SENSOR_DIFFERENTIAL_PRESSURE) ==> u1.airSpeed == u2.airSpeed)
            && (Agree(st1, st2, MAV_SYS_STATUS_AHRS) ==> u1.ahrs == u2.ahrs)
            && (Agree(st1, st2, MAV_SYS_STATUS_SENSOR_LASER_POSITION) ==> u1.rangeFinder == u2.rangeFinder))
  {
  }

  /** The health mask never influences the result. */
  lemma HealthIgnored(v: Vehicle, st: SysStatusFields, health: bv32,
                      decodeVoltage: uint16 -> real, decodeCurrent: int16 -> real)
    ensures Decode(v, st.(health := health), decodeVoltage, decodeCurrent) ==
            Decode(v, st, decodeVoltage, decodeCurrent)
  {
  }

  /** Inertial sensing needs all four bits: clearing any one of them makes it unavailable. */
  lemma InsNeedsAllFourBits(v: Vehicle, st: SysStatusFields, clear: bv32,
                            decodeVoltage: uint16 -> real, decodeCurrent: int16 -> real)
    requires clear == MAV_SYS_STATUS_SENSOR_3D_ACCEL || clear == MAV_SYS_STATUS_SENSOR_3D_GYRO
    ensures !Decode(v, st.(present := st.present & !clear), decodeVoltage, decodeCurrent).ins
    ensures !Decode(v, st.(enabled := st.enabled & !clear), decodeVoltage, decodeCurrent).ins
  {
  }
}
