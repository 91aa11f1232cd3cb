/**
  The aerial platform: the transactional change of control mode and command frames, the command timer
  and its gates. `Platform` is the state as a value, with what each callback does to it; the class
  keeps the same state in fields.
*/
module AerialPlatform {
  import opened Messages
  import opened ControlModes
  import M = PlatformStateMachine

  // What the driver's own mode change does: calls of the frame setters, then an answer.
  datatype FrameCall = SetPoseFrame(frame: string) | SetTwistFrame(frame: string)
  datatype Driver = Driver(calls: seq<FrameCall>, accepts: bool)

  // Whether a transform to the target frame is available for each command.
  datatype Transforms = Transforms(pose: bool, twist: bool, trajectory: bool)

  datatype Frames = Frames(pose: string, twist: string)

  datatype Platform = Platform(
    available: seq<bv8>,
    mode: ControlMode,
    frames: Frames,
    hasNewReferences: bool,
    armed: bool, offboard: bool, connected: bool,
    status: Int8,
    poseCommand: string, twistCommand: string, trajectoryCommand: string)

  datatype Event =
    | SetMode(request: ControlMode, driver: Driver)
    | SetArming(on: bool, done: bool)
    | SetOffboard(on: bool, done: bool)
    | TakeOff(done: bool)
    | Land(done: bool)
    | MachineEvent(event: Int8)
    | Alert(alert: Int8)
    | Connection(up: bool)
    | ResetPlatform
    | PoseCommand(frame: string)
    | TwistCommand(frame: string)
    | TrajectoryCommand(frame: string)
    | ThrustCommand
    | CommandTimer(transforms: Transforms)

  // What the command timer did.
  datatype Outcome = Idle | Stopped | NotConverted | Sent

  // An empty frame is refused by the setters.
  function Declare(frames: Frames, call: FrameCall): Frames {
    match call
    case SetPoseFrame(f) => if f == "" then frames else frames.(pose := f)
    case SetTwistFrame(f) => if f == "" then frames else frames.(twist := f)
  }

  function DeclareAll(frames: Frames, calls: seq<FrameCall>): Frames {
    if calls == [] then frames
    else Declare(DeclareAll(frames, calls[..|calls| - 1]), calls[|calls| - 1])
  }

  // Every reference the mode carries has a frame, and a trajectory has a single one.
  predicate FramesDeclared(mode: ControlMode, frames: Frames) {
    && (FrameUsage(mode).pose ==> frames.pose != "")
    && (FrameUsage(mode).twist ==> frames.twist != "")
    && (mode.control == TRAJECTORY ==> frames.pose == frames.twist)
  }

  // The driver accepts a mode and has declared the frames that it needs.
  predicate DriverTakes(mode: ControlMode, driver: Driver) {
    driver.accepts && FramesDeclared(mode, DeclareAll(Frames("", ""), driver.calls))
  }

  // The mode and the frames of an accepted change; None when it is refused.
  function Change(p: Platform, request: ControlMode, driver: Driver): Option<(ControlMode, Frames)> {
    match Resolve(request, p.available)
    case None => None
    case Some(mode) =>
      if DriverTakes(mode, driver) then Some((mode, DeclareAll(Frames("", ""), driver.calls))) else None
  }

  function AfterSetMode(p: Platform, request: ControlMode, driver: Driver): Platform {
    match Change(p, request, driver)
    case None => p
    case Some((mode, frames)) =>
      p.(mode := mode, frames := frames, hasNewReferences := mode.control == HOVER || mode.control == UNSET)
  }

  function ResetActuators(p: Platform): Platform {
    p.(poseCommand := p.frames.pose, twistCommand := p.frames.twist, trajectoryCommand := p.frames.pose,
       hasNewReferences := true)
  }

  // The frame of a command after its conversion; None when it cannot be expressed in the target.
  function Convert(command: string, target: string, transform: bool): Option<string> {
    if command == "" then None
    else if command == target || transform then Some(target)
    else None
  }

  // The three commands after the conversion, which stops nothing when one of two fails.
  function ConvertCommands(p: Platform, t: Transforms): (Platform, bool) {
    if p.mode.control == TRAJECTORY then
      match Convert(p.trajectoryCommand, p.frames.pose, t.trajectory)
      case Some(f) => (p.(trajectoryCommand := f), true)
      case None => (p, false)
    else
      var usage := FrameUsage(p.mode);
      var pose := if usage.pose then Convert(p.poseCommand, p.frames.pose, t.pose) else Some(p.poseCommand);
      var twist := if usage.twist then Convert(p.twistCommand, p.frames.twist, t.twist) else Some(p.twistCommand);
      (p.(poseCommand := if pose.Some? then pose.value else p.poseCommand,
          twistCommand := if twist.Some? then twist.value else p.twistCommand),
       pose.Some? && twist.Some?)
  }

  function Timer(p: Platform, t: Transforms): (Platform, Outcome) {
    if p.mode.control == UNSET || !p.connected || !p.armed || !p.offboard then (p, Idle)
    else if p.status == EMERGENCY then (p, Stopped)
    else if !p.hasNewReferences then (p, Idle)
    else
      var (converted, ok) := ConvertCommands(p, t);
      (converted, if ok then Sent else NotConverted)
  }

  predicate Emergency(alert: Int8) {
    alert == KILL_SWITCH || alert == EMERGENCY_HOVER
  }

  function Step(p: Platform, e: Event): Platform {
    match e
    case SetMode(request, driver) => AfterSetMode(p, request, driver)
    case SetArming(on, done) =>
      if on == p.armed || !done then p
      else p.(armed := on, status := M.Process(p.status, if on then EVENT_ARM else EVENT_DISARM))
    case SetOffboard(on, done) => if done then p.(offboard := on) else p
    case TakeOff(done) => if done then p.(status := M.Process(p.status, EVENT_TOOK_OFF)) else p
    case Land(done) => if done then p.(status := M.Process(p.status, EVENT_LANDED)) else p
    case MachineEvent(event) => p.(status := M.Process(p.status, event))
    case Alert(alert) => if Emergency(alert) then p.(status := M.Process(p.status, EVENT_EMERGENCY)) else p
    case Connection(up) => p.(connected := up)
    case ResetPlatform => ResetActuators(p.(armed := false, offboard := false, connected := true, status := DISARMED))
    case PoseCommand(f) => p.(poseCommand := f, hasNewReferences := true)
    case TwistCommand(f) => p.(twistCommand := f, hasNewReferences := true)
    case TrajectoryCommand(f) => p.(trajectoryCommand := f, hasNewReferences := true)
    case ThrustCommand => p.(hasNewReferences := true)
    case CommandTimer(t) => Timer(p, t).0
  }

  // A platform that has loaded the modes of its configuration.
  function Initial(raw: seq<bv8>): Platform {
    Platform(Loaded(raw), NO_MODE, Frames("", ""), true, false, false, true, DISARMED, "", "", "")
  }

  class AerialPlatform {
    const machine: M.StateMachine
    var availableControlModes: seq<bv8>
    var currentControlMode: ControlMode
    var commandPoseFrameId: string
    var commandTwistFrameId: string
    var hasNewReferences: bool
    var armed: bool
    var offboard: bool
    var connected: bool
    var commandPose: string
    var commandTwist: string
    var commandTrajectory: string

    ghost predicate Valid()
      reads this, machine
    {
      machine.Valid()
    }

    ghost function State(): Platform
      reads this, machine
    {
      Platform(availableControlModes, currentControlMode, Frames(commandPoseFrameId, commandTwistFrameId),
               hasNewReferences, armed, offboard, connected, machine.state,
               commandPose, commandTwist, commandTrajectory)
    }

    constructor (raw: seq<bv8>)
      ensures Valid() && fresh(machine)
      ensures State() == Initial(raw)
    {
      machine := new M.StateMachine();
      availableControlModes := [];
      currentControlMode := NO_MODE;
      commandPoseFrameId, commandTwistFrameId := "", "";
      new;
      Reset();
      LoadControlModes(raw);
    }

    method LoadControlModes(raw: seq<bv8>)
      requires availableControlModes == []
      modifies this`availableControlModes
      ensures availableControlModes == Loaded(raw)
    {
      for i := 0 to |raw|
        invariant availableControlModes == Loaded(raw[..i])
      {
        assert raw[..i + 1][..i] == raw[..i];
        var m := raw[i] & !MATCH_RESERVED_BITS;
        KeyOfKey(raw[i]);
        LoadedIsCanonical(raw[..i]);
        SearchesAgree(m, availableControlModes);
        var mask := MATCH_CONTROL_MODE | MATCH_YAW_MODE;
        var duplicate, _ := FindBestMatchWithMask(m, availableControlModes, mask, UNSET_MODE_MASK);
        if duplicate {
          continue;
        }
        availableControlModes := availableControlModes + [m];
      }
      assert raw[..|raw|] == raw;
    }

    method SetCommandPoseFrameId(frame: string)
      modifies this`commandPoseFrameId
      ensures commandPoseFrameId == if frame == "" then old(commandPoseFrameId) else frame
    {
      if frame == "" {
        return;
      }
      if frame == commandPoseFrameId {
        return;
      }
      commandPoseFrameId := frame;
    }

    method SetCommandTwistFrameId(frame: string)
      modifies this`commandTwistFrameId
      ensures commandTwistFrameId == if frame == "" then old(commandTwistFrameId) else frame
    {
      if frame == "" {
        return;
      }
      if frame == commandTwistFrameId {
        return;
      }
      commandTwistFrameId := frame;
    }

    // The driver's part of a mode change: it may call the setters in any way before it answers.
    method OwnSetPlatformControlMode(driver: Driver) returns (accepted: bool)
      modifies this`commandPoseFrameId, this`commandTwistFrameId
      ensures Frames(commandPoseFrameId, commandTwistFrameId)
              == DeclareAll(old(Frames(commandPoseFrameId, commandTwistFrameId)), driver.calls)
      ensures accepted == driver.accepts
    {
      for i := 0 to |driver.calls|
        invariant Frames(commandPoseFrameId, commandTwistFrameId)
                  == DeclareAll(old(Frames(commandPoseFrameId, commandTwistFrameId)), driver.calls[..i])
      {
        assert driver.calls[..i + 1][..i] == driver.calls[..i];
        match driver.calls[i]
        case SetPoseFrame(f) => SetCommandPoseFrameId(f);
        case SetTwistFrame(f) => SetCommandTwistFrameId(f);
      }
      assert driver.calls[..|driver.calls|] == driver.calls;
      return driver.accepts;
    }

    // A refused change leaves the whole state as it was; an accepted one changes mode, frames and
    // `hasNewReferences` alone.
    method SetPlatformControlMode(request: ControlMode, driver: Driver) returns (accepted: bool)
      modifies this
      ensures accepted <==> Change(old(State()), request, driver).Some?
      ensures State() == AfterSetMode(old(State()), request, driver)
      ensures !accepted ==> State() == old(State())
    {
      var found, resolved := ResolveControlMode(request, availableControlModes, NO_MODE);
      if !found {
        return false;
      }
      var previousPose, previousTwist := commandPoseFrameId, commandTwistFrameId;
      commandPoseFrameId, commandTwistFrameId := "", "";
      var usage := FrameUsage(resolved);
      accepted := OwnSetPlatformControlMode(driver);
      var framesMissing := (usage.pose && commandPoseFrameId == "") || (usage.twist && commandTwistFrameId == "");
      var trajectoryFramesDiffer := resolved.control == TRAJECTORY && commandPoseFrameId != commandTwistFrameId;
      if accepted {
        if framesMissing {
          accepted := false;
        } else if trajectoryFramesDiffer {
          accepted := false;
        }
      }
      if !accepted {
        commandPoseFrameId, commandTwistFrameId := previousPose, previousTwist;
        return;
      }
      hasNewReferences := resolved.control == HOVER || resolved.control == UNSET;
      currentControlMode := resolved;
    }

    method ResetActuatorCommandMsgs()
      modifies this
      ensures State() == ResetActuators(old(State()))
    {
      commandPose, commandTwist, commandTrajectory := "", "", "";
      commandTrajectory := commandPoseFrameId;
      commandPose := commandPoseFrameId;
      commandTwist := commandTwistFrameId;
      hasNewReferences := true;
    }

    method Reset()
      requires Valid()
      modifies this, machine
      ensures Valid() && State() == Step(old(State()), ResetPlatform)
    {
      armed, offboard, connected := false, false, true;
      machine.SetState(DISARMED);
      ResetActuatorCommandMsgs();
    }

    method SetArmingState(on: bool, done: bool) returns (changed: bool)
      requires Valid()
      modifies this, machine
      ensures Valid() && State() == Step(old(State()), SetArming(on, done))
      ensures changed <==> on != old(armed) && done
    {
      if on == armed {
        return false;
      }
      if done {
        armed := on;
        var _ := machine.ProcessEvent(if on then EVENT_ARM else EVENT_DISARM);
        return true;
      }
      return false;
    }

    method SetOffboardControl(on: bool, done: bool) returns (changed: bool)
      modifies this`offboard
      ensures State() == Step(old(State()), SetOffboard(on, done))
      ensures changed <==> on != old(offboard) && done
    {
      if on == offboard {
        return false;
      }
      if done {
        offboard := on;
      }
      return done;
    }

    method Takeoff(done: bool) returns (ok: bool)
      requires Valid()
      modifies machine
      ensures Valid() && State() == Step(old(State()), TakeOff(done)) && ok == done
    {
      if done {
        var _ := machine.ProcessEvent(EVENT_TOOK_OFF);
      }
      return done;
    }

    method LandPlatform(done: bool) returns (ok: bool)
      requires Valid()
      modifies machine
      ensures Valid() && State() == Step(old(State()), Land(done)) && ok == done
    {
      if done {
        var _ := machine.ProcessEvent(EVENT_LANDED);
      }
      return done;
    }

    method TrajectoryCommandCallback(frame: string)
      modifies this`commandTrajectory, this`hasNewReferences
      ensures State() == Step(old(State()), TrajectoryCommand(frame))
    {
      commandTrajectory, hasNewReferences := frame, true;
    }

    method PoseCommandCallback(frame: string)
      modifies this`commandPose, this`hasNewReferences
      ensures State() == Step(old(State()), PoseCommand(frame))
    {
      commandPose, hasNewReferences := frame, true;
    }

    method TwistCommandCallback(frame: string)
      modifies this`commandTwist, this`hasNewReferences
      ensures State() == Step(old(State()), TwistCommand(frame))
    {
      commandTwist, hasNewReferences := frame, true;
    }

    method ThrustCommandCallback()
      modifies this`hasNewReferences
      ensures State() == Step(old(State()), ThrustCommand)
    {
      hasNewReferences := true;
    }

    method AlertEvent(alert: Int8)
      requires Valid()
      modifies machine
      ensures Valid() && State() == Step(old(State()), Alert(alert))
    {
      if alert > 0 {
        return;
      }
      if alert == KILL_SWITCH {
        var _ := machine.ProcessEvent(EVENT_EMERGENCY);
      } else if alert == EMERGENCY_HOVER {
        var _ := machine.ProcessEvent(EVENT_EMERGENCY);
      }
    }

    method ConvertCommand(command: string, target: string, transform: bool) returns (frame: string, converted: bool)
      ensures converted <==> Convert(command, target, transform).Some?
      ensures frame == if converted then target else command
    {
      if command == "" {
        return command, false;
      }
      if command == target {
        return command, true;
      }
      return if transform then target else command, transform;
    }

    method ConvertCommandsToFrame(t: Transforms) returns (converted: bool)
      modifies this`commandPose, this`commandTwist, this`commandTrajectory
      ensures (State(), converted) == ConvertCommands(old(State()), t)
    {
      if currentControlMode.control == TRAJECTORY {
        commandTrajectory, converted := ConvertCommand(commandTrajectory, commandPoseFrameId, t.trajectory);
        return;
      }
      var usage := FrameUsage(currentControlMode);
      converted := true;
      if usage.pose {
        commandPose, converted := ConvertCommand(commandPose, commandPoseFrameId, t.pose);
      }
      if usage.twist {
        var twistConverted;
        commandTwist, twistConverted := ConvertCommand(commandTwist, commandTwistFrameId, t.twist);
        converted := twistConverted && converted;
      }
    }

    method SendCommand(t: Transforms) returns (outcome: Outcome)
      modifies this`commandPose, this`commandTwist, this`commandTrajectory
      ensures (State(), outcome) == Timer(old(State()), t)
    {
      if currentControlMode.control == UNSET {
        return Idle;
      }
      if !connected {
        return Idle;
      } else if !armed {
        return Idle;
      } else if !offboard {
        return Idle;
      }
      if machine.state == EMERGENCY {
        return Stopped;
      } else if hasNewReferences {
        var converted := ConvertCommandsToFrame(t);
        return if converted then Sent else NotConverted;
      }
      return Idle;
    }
  }
}
