/** Constants and types of the messages, as the message definition files give them. */
module Messages {

  newtype Int8 = x: int | -128 <= x < 128

  datatype Option<+T> = None | Some(value: T)

  // PlatformStatus
  const EMERGENCY: Int8 := -1
  const DISARMED: Int8 := 0
  const LANDED: Int8 := 1
  const TAKING_OFF: Int8 := 2
  const FLYING: Int8 := 3
  const LANDING: Int8 := 4

  // PlatformStateMachineEvent
  const EVENT_EMERGENCY: Int8 := -1
  const EVENT_ARM: Int8 := 0
  const EVENT_DISARM: Int8 := 1
  const EVENT_TAKE_OFF: Int8 := 2
  const EVENT_TOOK_OFF: Int8 := 3
  const EVENT_LAND: Int8 := 4
  const EVENT_LANDED: Int8 := 5

  // AlertEvent
  const KILL_SWITCH: Int8 := -1
  const EMERGENCY_HOVER: Int8 := -2

  // ControlMode.control_mode
  const UNSET: Int8 := 0
  const HOVER: Int8 := 1
  const POSITION: Int8 := 2
  const SPEED: Int8 := 3
  const SPEED_IN_A_PLANE: Int8 := 4
  const ATTITUDE: Int8 := 5
  const BODY_RATES: Int8 := 6
  const TRAJECTORY: Int8 := 7

  // ControlMode.yaw_mode
  const YAW_NONE: Int8 := 0
  const YAW_ANGLE: Int8 := 1
  const YAW_SPEED: Int8 := 2

  datatype ControlMode = ControlMode(control: Int8, yaw: Int8)

  // What a default constructed message holds.
  const NO_MODE := ControlMode(UNSET, YAW_NONE)
}
