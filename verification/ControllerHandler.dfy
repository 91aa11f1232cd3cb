/** The controller handler and the base of its plugin, with their fields and callbacks. */
module ControllerHandler {
  import opened Messages
  import opened ControlModes
  import opened ModeNegotiation
  import opened HandlerModel
  import P = AerialPlatform
  import R = HandlerRuns

  class ControllerBase {
    var controlModeIn: ControlMode
    var controlModeOut: ControlMode
    var desiredPoseFrameId: string
    var desiredTwistFrameId: string
    var hoverEnabled: bool
    var referenceReceived: bool

    ghost function State(): Plugin
      reads this
    {
      Plugin(controlModeIn, controlModeOut, desiredPoseFrameId, desiredTwistFrameId, hoverEnabled, referenceReceived)
    }

    constructor (poseFrame: string, twistFrame: string)
      ensures State() == Plugin(NO_MODE, NO_MODE, poseFrame, twistFrame, false, false)
    {
      controlModeIn, controlModeOut := NO_MODE, NO_MODE;
      desiredPoseFrameId, desiredTwistFrameId := poseFrame, twistFrame;
      hoverEnabled, referenceReceived := false, false;
    }

    method SetMode(modeIn: ControlMode, modeOut: ControlMode, reply: PluginReply) returns (accepted: bool)
      modifies this
      ensures State() == PluginSetMode(old(State()), modeIn, modeOut, reply)
      ensures accepted == reply.accepts
    {
      desiredPoseFrameId, desiredTwistFrameId := reply.poseFrame, reply.twistFrame;
      if !reply.accepts {
        return false;
      }
      controlModeIn := modeIn;
      controlModeOut := modeOut;
      return true;
    }

    method UpdateReference()
      modifies this`referenceReceived
      ensures State() == old(State()).(referenceReceived := true)
    {
      referenceReceived := true;
    }

    method SetHoverEnabled(enabled: bool)
      modifies this`hoverEnabled
      ensures State() == old(State()).(hoverEnabled := enabled)
    {
      hoverEnabled := enabled;
    }

    method Reset()
      modifies this`referenceReceived
      ensures State() == old(State()).(referenceReceived := false)
    {
      referenceReceived := false;
    }
  }

  class ControllerHandler {
    const platform: P.AerialPlatform
    const controller: ControllerBase
    const config: Config
    var platformAvailableModesIn: seq<bv8>
    var controlModeEstablished: bool
    var bypassController: bool
    var hoverPending: bool
    var controlModeIn: ControlMode
    var controlModeOut: ControlMode
    var inputPoseFrameId: string
    var inputTwistFrameId: string
    var refPoseAcquired: bool
    var refTwistAcquired: bool
    var refTrajAcquired: bool
    var refThrustAcquired: bool
    var stateAcquired: bool
    var lastTime: int
    var platformInfo: Info
    // The requests sent to the platform, and what the handler has done that others see.
    ghost var requests: nat
    ghost var log: seq<Action>

    ghost function State(): World
      reads this, platform, platform.machine, controller
    {
      var progress := Progress(
        controlModeIn, controlModeOut, inputPoseFrameId, inputTwistFrameId, hoverPending,
        refPoseAcquired, refTwistAcquired, refTrajAcquired, refThrustAcquired, stateAcquired, lastTime);
      World(Handler(config, platformAvailableModesIn, controlModeEstablished, bypassController, progress, platformInfo),
            platform.State(), controller.State(), requests)
    }

    constructor (platform: P.AerialPlatform, controller: ControllerBase, config: Config, odom: string, now: int)
      requires Sorted(config.modesIn) && Sorted(config.modesOut)
      ensures this.platform == platform && this.controller == controller && this.config == config
      ensures !controlModeEstablished && !bypassController && !hoverPending && !stateAcquired
      ensures !refPoseAcquired && !refTwistAcquired && !refTrajAcquired && !refThrustAcquired
      ensures controlModeIn == NO_MODE && controlModeOut == NO_MODE && platformAvailableModesIn == []
      ensures log == [] && requests == 0
    {
      this.platform, this.controller, this.config := platform, controller, config;
      platformAvailableModesIn := [];
      controlModeEstablished, bypassController, hoverPending := false, false, false;
      controlModeIn, controlModeOut := NO_MODE, NO_MODE;
      inputPoseFrameId, inputTwistFrameId := odom, odom;
      refPoseAcquired, refTwistAcquired, refTrajAcquired, refThrustAcquired := false, false, false, false;
      stateAcquired := false;
      lastTime := now;
      platformInfo := Info(false, false, NO_MODE);
      requests, log := 0, [];
    }

    method SetPlatformControlMode(mode: ControlMode, d: Delivery) returns (accepted: bool)
      modifies this`requests, platform
      ensures (State(), accepted) == Ask(old(State()), mode, d)
    {
      requests := requests + 1;
      if !d.reached {
        return false;
      }
      var answer := platform.SetPlatformControlMode(mode, d.driver);
      return d.answered && answer;
    }

    method ListPlatformAvailableControlModes(env: Env) returns (listed: bool)
      modifies this`platformAvailableModesIn
      ensures listed <==> FetchModes(old(State()), env).Some?
      ensures State() == if listed then FetchModes(old(State()), env).value else old(State())
    {
      if platformAvailableModesIn == [] {
        if !env.listed {
          return false;
        }
        if platform.availableControlModes == [] {
          return false;
        }
        platformAvailableModesIn := platform.availableControlModes;
      }
      return true;
    }

    method TrySetPlatformHover(d: Delivery) returns (hovering: bool)
      modifies this`requests, platform
      ensures !OffersHover(platformAvailableModesIn) ==> State() == old(State()) && !hovering
      ensures OffersHover(platformAvailableModesIn) ==> (State(), hovering) == Ask(old(State()), HOVER_REQUEST, d)
    {
      for i := 0 to |platformAvailableModesIn|
        invariant State() == old(State())
        invariant forall j :: 0 <= j < i ==> Level(platformAvailableModesIn[j]) != HOVER_MODE_MASK
      {
        if Level(platformAvailableModesIn[i]) == HOVER_MODE_MASK {
          assert OffersHover(platformAvailableModesIn);
          hovering := SetPlatformControlMode(Decode(HOVER_MODE_MASK), d);
          return;
        }
      }
      return false;
    }

    method TryToBypassController(input: bv8) returns (bypassed: bool, output: bv8)
      ensures output == BypassMode(input, platformAvailableModesIn) && bypassed == (output != 0)
    {
      if Level(input) == UNSET_MODE_MASK || Level(input) == HOVER_MODE_MASK {
        return false, 0;
      }
      var candidate := FindLastMatchWithMask(input, platformAvailableModesIn, MATCH_MODE_AND_YAW);
      return candidate != 0, candidate;
    }

    method Reset(now: int)
      modifies this`lastTime, this`stateAcquired, controller`referenceReceived
      modifies this`refPoseAcquired, this`refTwistAcquired, this`refTrajAcquired, this`refThrustAcquired
      ensures State() == ResetAll(old(State()), now)
    {
      controller.Reset();
      lastTime := now;
      stateAcquired := false;
      refPoseAcquired := false;
      refTwistAcquired := false;
      refTrajAcquired := false;
      refThrustAcquired := false;
    }

    // The bypass is decided anew by every request.
    method DecideBypass(request: ControlMode, input: bv8, env: Env) returns (output: bv8)
      requires input == if request.control == HOVER then HOVER_MODE_MASK else Encode(request)
      modifies this`bypassController, this`requests, platform
      ensures (State(), output) == TryBypass(old(State()), request, env)
    {
      EncodedFields(request);
      output := 0;
      bypassController := false;
      if config.useBypass {
        if input == HOVER_MODE_MASK {
          var hovering := TrySetPlatformHover(env.hover);
          if hovering {
            bypassController := true;
            output := HOVER_MODE_MASK;
          }
        } else {
          bypassController, output := TryToBypassController(input);
        }
      }
    }

    // Tries the pairs in order, until both sides accept one.
    method TryPairs(pairs: seq<Pair>, env: Env) returns (settled: bool, last: Pair, platformModeChanged: bool)
      requires pairs != []
      modifies this`requests, platform, controller
      ensures var tried := TryFrom(old(State()), pairs, env, 0);
              && State() == tried.world
              && settled == tried.settled.Some? && (settled ==> last == pairs[tried.settled.value])
              && (!settled ==> platformModeChanged == tried.platformAccepted)
    {
      settled, platformModeChanged := false, false;
      last := pairs[0];
      ghost var tried := TryFrom(State(), pairs, env, 0);
      for i := 0 to |pairs|
        invariant tried.world == TryFrom(State(), pairs, env, i).world
        invariant tried.settled == TryFrom(State(), pairs, env, i).settled
        invariant tried.settled.None? ==>
          tried.platformAccepted == (platformModeChanged || TryFrom(State(), pairs, env, i).platformAccepted)
      {
        last := pairs[i];
        var accepted := SetPlatformControlMode(Decode(last.1), env.platform(i));
        if !accepted {
          continue;
        }
        platformModeChanged := true;
        if bypassController {
          return true, last, true;
        }
        var taken := controller.SetMode(Decode(last.0), Decode(last.1), env.plugin(i));
        if taken {
          return true, last, true;
        }
      }
    }

    method SetModes(modeIn: ControlMode, modeOut: ControlMode)
      modifies this`controlModeEstablished, this`controlModeOut, this`controlModeIn
      ensures State() == AdoptModes(old(State()), modeIn, modeOut)
    {
      controlModeEstablished := true;
      controlModeOut := modeOut;
      if bypassController {
        controlModeIn := modeOut;
      } else {
        controlModeIn := modeIn;
      }
    }

    method SetFrames()
      modifies this`inputPoseFrameId, this`inputTwistFrameId
      ensures State() == AdoptFrames(old(State()))
    {
      if !bypassController {
        inputPoseFrameId := controller.desiredPoseFrameId;
        inputTwistFrameId := controller.desiredTwistFrameId;
      }
    }

    // What follows once a pair is settled.
    method Establish(pair: Pair, hoverRequested: bool, now: int)
      modifies this, controller
      ensures State() == Settle(old(State()), pair, hoverRequested, now)
      ensures log == old(log) + [ModeSettled(hoverRequested, bypassController, now)]
    {
      SetModes(Decode(pair.0), Decode(pair.1));
      SetFrames();
      Reset(now);
      if !bypassController {
        controller.SetHoverEnabled(hoverRequested);
        hoverPending := hoverRequested;
      }
      log := log + [ModeSettled(hoverRequested, bypassController, now)];
    }

    // The pairs to try, once the bypass is decided.
    method FindPairs(request: ControlMode, output: bv8, env: Env) returns (pairs: seq<Pair>)
      ensures pairs == PairsToTry(State(), request, output, env)
    {
      if bypassController {
        return [(UNSET_MODE_MASK, output)];
      }
      var input := Encode(request);
      if request.control == HOVER {
        if env.hoverMode.control == UNSET {
          return [];
        }
        input := Encode(env.hoverMode);
      }
      pairs := FindModePairs(input, config.preferred, config.modesIn, config.modesOut, platformAvailableModesIn);
    }

    // Drops the established mode and finds the pairs to try; without any, the request is refused.
    method ChoosePairs(request: ControlMode, env: Env) returns (pairs: seq<Pair>)
      modifies this`controlModeEstablished, this`platformAvailableModesIn, this`bypassController
      modifies this`requests, this`log, platform
      ensures (State(), pairs) == Prepare(old(State()), request, env)
      ensures log == old(log) + [ModeRequested]
    {
      log := log + [ModeRequested];
      controlModeEstablished := false;
      var listed := ListPlatformAvailableControlModes(env);
      if !listed {
        return [];
      }
      var input := if request.control == HOVER then HOVER_MODE_MASK else Encode(request);
      var output := DecideBypass(request, input, env);
      pairs := FindPairs(request, output, env);
    }

    // A request without its fallback.
    method ServeRequest(request: ControlMode, env: Env) returns (outcome: Outcome)
      modifies this, platform, controller
      ensures (State(), outcome) == Serve(old(State()), request, env)
      ensures log == old(log) + ServeActions(old(State()), request, env)
    {
      var previousPlatformMode := platformInfo.mode;
      var pairs := ChoosePairs(request, env);
      if pairs == [] {
        return Refused;
      }
      var modeSet, pair, platformModeChanged := TryPairs(pairs, env);
      if modeSet {
        Establish(pair, request.control == HOVER, env.now);
        return Settled;
      }
      if platformModeChanged {
        var _ := SetPlatformControlMode(previousPlatformMode, env.restore);
      }
      return Exhausted;
    }

    // A request that falls back to HOVER calls the service again, which cannot fall back once more.
    method SetControlModeSrvCall(request: ControlMode, env: Env, fallback: Env) returns (success: bool)
      modifies this, platform, controller
      ensures (State(), success) == SetControlMode(old(State()), request, env, fallback)
      ensures log == old(log) + RequestActions(old(State()), request, env, fallback)
      decreases if request.control == HOVER then 0 else 1
    {
      var outcome := ServeRequest(request, env);
      if outcome == Exhausted && request.control != HOVER {
        var _ := SetControlModeSrvCall(Decode(HOVER_MODE_MASK), fallback, fallback);
      }
      return outcome == Settled;
    }

    method StateCallback(transformed: bool, pose: Pose)
      modifies this`stateAcquired, this`hoverPending, this`log, controller`referenceReceived
      ensures State() == Step(old(State()), StateMessage(transformed, pose)).0
      ensures log == old(log) + Step(old(State()), StateMessage(transformed, pose)).1
    {
      if !controlModeEstablished || bypassController {
        return;
      }
      if !transformed {
        return;
      }
      stateAcquired := true;
      if hoverPending {
        // The pose, a zero twist, and the one setpoint of a trajectory.
        controller.UpdateReference();
        controller.UpdateReference();
        controller.UpdateReference();
        log := log + [HoverInjected(pose, NO_TWIST, Pose(pose.frame, pose.x, pose.y, pose.z, pose.yaw))];
        hoverPending := false;
      }
      log := log + [StateFed];
    }

    method RefPoseCallback(frame: string, transformed: bool)
      modifies this`refPoseAcquired, this`log, controller`referenceReceived
      ensures State() == Step(old(State()), ReferenceMessage(PoseRef(frame), transformed)).0
      ensures log == old(log) + Step(old(State()), ReferenceMessage(PoseRef(frame), transformed)).1
    {
      if (!controlModeEstablished && !bypassController)
        || controlModeIn.control == HOVER || controlModeIn.control == UNSET
      {
        return;
      }
      if !bypassController && !transformed {
        return;
      }
      refPoseAcquired := true;
      log := log + [ReferenceFed(PoseRef(if bypassController then frame else inputPoseFrameId))];
      if !bypassController {
        controller.UpdateReference();
      }
    }

    method RefTwistCallback(frame: string, transformed: bool)
      modifies this`refTwistAcquired, this`log, controller`referenceReceived
      ensures State() == Step(old(State()), ReferenceMessage(TwistRef(frame), transformed)).0
      ensures log == old(log) + Step(old(State()), ReferenceMessage(TwistRef(frame), transformed)).1
    {
      if (!controlModeEstablished && !bypassController)
        || controlModeIn.control == HOVER || controlModeIn.control == UNSET
      {
        return;
      }
      if !bypassController && !transformed {
        return;
      }
      refTwistAcquired := true;
      log := log + [ReferenceFed(TwistRef(if bypassController then frame else inputTwistFrameId))];
      if !bypassController {
        controller.UpdateReference();
      }
    }

    method RefTrajCallback(empty: bool, frame: string, transformed: bool)
      modifies this`refTrajAcquired, this`log, controller`referenceReceived
      ensures State() == Step(old(State()), ReferenceMessage(TrajectoryRef(empty, frame), transformed)).0
      ensures log == old(log) + Step(old(State()), ReferenceMessage(TrajectoryRef(empty, frame), transformed)).1
    {
      if (!controlModeEstablished && !bypassController)
        || controlModeIn.control == HOVER || controlModeIn.control == UNSET
      {
        return;
      }
      if empty {
        return;
      }
      if inputPoseFrameId != inputTwistFrameId {
        return;
      }
      if frame != inputPoseFrameId {
        if !transformed {
          return;
        }
      }
      refTrajAcquired := true;
      log := log + [ReferenceFed(TrajectoryRef(false, inputPoseFrameId))];
      if !bypassController {
        controller.UpdateReference();
      }
    }

    method RefThrustCallback()
      modifies this`refThrustAcquired, this`log, controller`referenceReceived
      ensures State() == Step(old(State()), ReferenceMessage(ThrustRef, true)).0
      ensures log == old(log) + Step(old(State()), ReferenceMessage(ThrustRef, true)).1
    {
      if (!controlModeEstablished && !bypassController)
        || controlModeIn.control == HOVER || controlModeIn.control == UNSET
      {
        return;
      }
      refThrustAcquired := true;
      log := log + [ReferenceFed(ThrustRef)];
      if !bypassController {
        controller.UpdateReference();
      }
    }

    method PlatformInfoCallback(info: Info)
      modifies this`platformInfo
      ensures State() == Step(old(State()), InfoMessage(info)).0
    {
      platformInfo := info;
    }

    method SendCommand(now: int, computed: bool)
      modifies this`lastTime, this`log
      ensures State() == Command(old(State()), now, computed).0
      ensures log == old(log) + Command(old(State()), now, computed).1
    {
      if bypassController {
        if !(refPoseAcquired || refTwistAcquired || refTrajAcquired || refThrustAcquired) {
          return;
        }
      } else {
        var dt := now - lastTime;
        if dt <= 0 {
          return;
        }
        lastTime := now;
        log := log + [Computed(dt)];
        if !computed {
          return;
        }
      }
      log := log + [Published(CommandsOf(controlModeOut))];
    }

    method ControlTimerCallback(now: int, computed: bool)
      modifies this`lastTime, this`log
      ensures State() == Step(old(State()), ControlTimer(now, computed)).0
      ensures log == old(log) + Step(old(State()), ControlTimer(now, computed)).1
    {
      if !platformInfo.offboard || !platformInfo.armed || controlModeOut.control == HOVER {
        return;
      }
      if !controlModeEstablished {
        return;
      }
      if !stateAcquired && !bypassController {
        return;
      }
      if !controller.referenceReceived && !bypassController {
        return;
      }
      SendCommand(now, computed);
    }
  }

  // A platform, a plugin and their handler, from which every run starts.
  method Build(raw: seq<bv8>, config: Config, poseFrame: string, twistFrame: string, odom: string, now: int)
    returns (handler: ControllerHandler)
    requires Sorted(config.modesIn) && Sorted(config.modesOut)
    ensures fresh(handler) && fresh(handler.platform) && fresh(handler.controller) && handler.platform.Valid()
    ensures handler.config == config && handler.log == []
    ensures R.Initial(handler.State(), raw)
  {
    var platform := new P.AerialPlatform(raw);
    var controller := new ControllerBase(poseFrame, twistFrame);
    handler := new ControllerHandler(platform, controller, config, odom, now);
  }
}
