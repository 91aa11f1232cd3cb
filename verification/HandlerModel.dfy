/**
  The controller's side of the control mode protocol, with the platform and the plugin it talks to:
  the state as a value, and what every callback of the handler does to it.
*/
module HandlerModel {
  import opened Messages
  import opened ControlModes
  import opened ModeNegotiation
  import P = AerialPlatform

  // What the handler last heard from the platform.
  datatype Info = Info(armed: bool, offboard: bool, mode: ControlMode)

  // What is given before any request.
  datatype Config = Config(modesIn: seq<bv8>, modesOut: seq<bv8>, preferred: bv8, useBypass: bool)

  // What only a settled request and the messages after it change.
  datatype Progress = Progress(
    modeIn: ControlMode, modeOut: ControlMode,
    poseFrame: string, twistFrame: string,
    hoverPending: bool,
    refPose: bool, refTwist: bool, refTrajectory: bool, refThrust: bool, stateAcquired: bool,
    lastTime: int)

  datatype Handler = Handler(
    config: Config,
    platformModes: seq<bv8>,
    established: bool, bypass: bool,
    progress: Progress,
    info: Info)

  // The state the base class of a plugin keeps; `modeIn` and `modeOut` are the last it accepted.
  datatype Plugin = Plugin(
    modeIn: ControlMode, modeOut: ControlMode,
    poseFrame: string, twistFrame: string,
    hoverEnabled: bool, referenceReceived: bool)

  datatype World = World(h: Handler, p: P.Platform, g: Plugin, requests: nat)

  // A request to the platform may not reach it, and its answer may not come back.
  datatype Delivery = Delivery(reached: bool, answered: bool, driver: P.Driver)

  // The plugin's answer to a pair of modes, and the frames it wants from then on.
  datatype PluginReply = PluginReply(accepts: bool, poseFrame: string, twistFrame: string)

  // Everything the outside world answers during one call of the service.
  datatype Env = Env(
    listed: bool,
    hover: Delivery,
    platform: nat -> Delivery,
    plugin: nat -> PluginReply,
    restore: Delivery,
    hoverMode: ControlMode,
    now: int)

  const HOVER_REQUEST := ControlMode(HOVER, YAW_ANGLE)

  // A platform mode request, and whether the handler sees it accepted.
  function Ask(w: World, mode: ControlMode, d: Delivery): (World, bool) {
    var asked := w.(requests := w.requests + 1);
    if d.reached
    then (asked.(p := P.AfterSetMode(w.p, mode, d.driver)), d.answered && P.Change(w.p, mode, d.driver).Some?)
    else (asked, false)
  }

  function PluginSetMode(g: Plugin, modeIn: ControlMode, modeOut: ControlMode, reply: PluginReply): Plugin {
    var h := g.(poseFrame := reply.poseFrame, twistFrame := reply.twistFrame);
    if reply.accepts then h.(modeIn := modeIn, modeOut := modeOut) else h
  }

  // One pair: first the platform, then, unless the controller is bypassed, the plugin.
  datatype Attempt = Attempt(world: World, platformAccepted: bool, settled: bool)

  function Try(w: World, pair: Pair, d: Delivery, reply: PluginReply): Attempt {
    var (asked, accepted) := Ask(w, Decode(pair.1), d);
    if !accepted then Attempt(asked, false, false)
    else if w.h.bypass then Attempt(asked, true, true)
    else Attempt(asked.(g := PluginSetMode(w.g, Decode(pair.0), Decode(pair.1), reply)), true, reply.accepts)
  }

  // The pairs from index i on, until one is settled.
  datatype Attempts = Attempts(world: World, platformAccepted: bool, settled: Option<nat>)

  function TryFrom(w: World, pairs: seq<Pair>, env: Env, i: nat): (r: Attempts)
    requires i <= |pairs|
    ensures r.settled.Some? ==> i <= r.settled.value < |pairs|
    decreases |pairs| - i
  {
    if i == |pairs| then Attempts(w, false, None)
    else
      var attempt := Try(w, pairs[i], env.platform(i), env.plugin(i));
      if attempt.settled then Attempts(attempt.world, true, Some(i))
      else
        var rest := TryFrom(attempt.world, pairs, env, i + 1);
        rest.(platformAccepted := rest.platformAccepted || attempt.platformAccepted)
  }

  // The list of platform modes is fetched once, and an empty one counts as a failure.
  function FetchModes(w: World, env: Env): Option<World> {
    if w.h.platformModes != [] then Some(w)
    else if env.listed && w.p.available != [] then Some(w.(h := w.h.(platformModes := w.p.available)))
    else None
  }

  predicate OffersHover(modes: seq<bv8>) {
    exists c :: c in modes && Level(c) == HOVER_MODE_MASK
  }

  // The platform mode that takes the input without the plugin, or 0.
  function BypassMode(input: bv8, modes: seq<bv8>): bv8 {
    if Skipped(input) then 0 else LastMatch(input, modes, MATCH_MODE_AND_YAW)
  }

  // Decides on the bypass; the byte is the output mode of a bypass.
  function TryBypass(w: World, request: ControlMode, env: Env): (World, bv8) {
    if !w.h.config.useBypass then (w.(h := w.h.(bypass := false)), 0)
    else if request.control == HOVER then
      if OffersHover(w.h.platformModes) then
        var (asked, accepted) := Ask(w, HOVER_REQUEST, env.hover);
        (asked.(h := w.h.(bypass := accepted)), if accepted then HOVER_MODE_MASK else 0)
      else (w.(h := w.h.(bypass := false)), 0)
    else
      var output := BypassMode(Encode(request), w.h.platformModes);
      (w.(h := w.h.(bypass := output != 0)), output)
  }

  // The pairs to try; none is a refusal.
  function PairsToTry(w: World, request: ControlMode, output: bv8, env: Env): seq<Pair> {
    if w.h.bypass then [(UNSET_MODE_MASK, output)]
    else if request.control == HOVER && env.hoverMode.control == UNSET then []
    else
      var input := Encode(if request.control == HOVER then env.hoverMode else request);
      ModePairs(input, w.h.config.preferred, w.h.config.modesIn, w.h.config.modesOut, w.h.platformModes)
  }

  function ResetAll(w: World, now: int): World {
    var progress := w.h.progress.(
      lastTime := now, stateAcquired := false,
      refPose := false, refTwist := false, refTrajectory := false, refThrust := false);
    w.(h := w.h.(progress := progress), g := w.g.(referenceReceived := false))
  }

  // The modes of a settled pair; a bypassed controller has one mode for both ends.
  function AdoptModes(w: World, modeIn: ControlMode, modeOut: ControlMode): World {
    var progress := w.h.progress.(modeOut := modeOut, modeIn := if w.h.bypass then modeOut else modeIn);
    w.(h := w.h.(established := true, progress := progress))
  }

  // The frames that the plugin wants for its references.
  function AdoptFrames(w: World): World {
    if w.h.bypass then w
    else w.(h := w.h.(progress := w.h.progress.(poseFrame := w.g.poseFrame, twistFrame := w.g.twistFrame)))
  }

  // Only a plugin that serves the request is told whether it is a hover.
  function ArmHover(w: World, hover: bool): World {
    if w.h.bypass then w
    else w.(h := w.h.(progress := w.h.progress.(hoverPending := hover)), g := w.g.(hoverEnabled := hover))
  }

  // What a settled pair leaves behind.
  function Settle(w: World, pair: Pair, hover: bool, now: int): World {
    ArmHover(ResetAll(AdoptFrames(AdoptModes(w, Decode(pair.0), Decode(pair.1))), now), hover)
  }

  // A request is refused before anything is tried, settled, or tried in vain.
  datatype Outcome = Refused | Settled | Exhausted

  // The request up to the point where the pairs are tried; None when it is refused before.
  function Prepare(w: World, request: ControlMode, env: Env): (World, seq<Pair>) {
    var cleared := w.(h := w.h.(established := false));
    match FetchModes(cleared, env)
    case None => (cleared, [])
    case Some(listed) =>
      var (decided, output) := TryBypass(listed, request, env);
      (decided, PairsToTry(decided, request, output, env))
  }

  // The service call without the fallback.
  function Serve(w: World, request: ControlMode, env: Env): (World, Outcome) {
    var (ready, pairs) := Prepare(w, request, env);
    if pairs == [] then (ready, Refused)
    else
      var tried := TryFrom(ready, pairs, env, 0);
      match tried.settled
      case Some(i) => (Settle(tried.world, pairs[i], request.control == HOVER, env.now), Settled)
      case None =>
        (if tried.platformAccepted then Ask(tried.world, w.h.info.mode, env.restore).0 else tried.world, Exhausted)
  }

  // The whole service call: a request that is tried in vain is followed by one for HOVER.
  function SetControlMode(w: World, request: ControlMode, env: Env, fallback: Env): (World, bool) {
    var (served, outcome) := Serve(w, request, env);
    if outcome == Exhausted && request.control != HOVER
    then (Serve(served, HOVER_REQUEST, fallback).0, false)
    else (served, outcome == Settled)
  }

  // What the handler does that others see, and what feeds it.
  datatype Action =
    | ModeRequested
    | ModeSettled(hover: bool, bypass: bool, at: int)
    | StateFed
    | ReferenceFed(reference: Reference)
    | HoverInjected(pose: Pose, twist: Twist, setpoint: Pose)
    | Computed(dt: int)
    | Published(commands: Commands)

  datatype Pose = Pose(frame: string, x: real, y: real, z: real, yaw: real)

  // Linear and angular velocity.
  datatype Twist = Twist(vx: real, vy: real, vz: real, wx: real, wy: real, wz: real)

  const NO_TWIST := Twist(0.0, 0.0, 0.0, 0.0, 0.0, 0.0)

  // The messages a command is made of.
  datatype Commands = Commands(pose: bool, twist: bool, trajectory: bool, thrust: bool)

  // The messages published for an output mode.
  function CommandsOf(mode: ControlMode): Commands {
    if mode.control == TRAJECTORY then Commands(false, false, true, false)
    else if mode.control == POSITION || mode.control == SPEED_IN_A_PLANE then Commands(true, true, false, false)
    else if mode.control == SPEED then Commands(mode.yaw == YAW_ANGLE, true, false, false)
    else if mode.control == ATTITUDE then Commands(true, mode.yaw == YAW_SPEED, false, true)
    else if mode.control == BODY_RATES then Commands(false, true, false, true)
    else Commands(false, false, false, false)
  }

  // A reference is the frame that it is in; a trajectory may have no points.
  datatype Reference =
    | PoseRef(frame: string)
    | TwistRef(frame: string)
    | TrajectoryRef(empty: bool, frame: string)
    | ThrustRef

  datatype Event =
    | Request(request: ControlMode, env: Env, fallback: Env)
    | StateMessage(transformed: bool, pose: Pose)
    | ReferenceMessage(reference: Reference, transformed: bool)
    | InfoMessage(info: Info)
    | ControlTimer(now: int, computed: bool)
    | PlatformEvent(event: P.Event)

  // References are listened to outside HOVER and UNSET, once a mode is established or bypassed.
  predicate Listening(h: Handler) {
    (h.established || h.bypass) && h.progress.modeIn.control != HOVER && h.progress.modeIn.control != UNSET
  }

  // A reference that the handler keeps.
  predicate Taken(h: Handler, reference: Reference, transformed: bool) {
    && Listening(h)
    && match reference
       case PoseRef(_) => h.bypass || transformed
       case TwistRef(_) => h.bypass || transformed
       case TrajectoryRef(empty, frame) =>
         && !empty && h.progress.poseFrame == h.progress.twistFrame
         && (frame == h.progress.poseFrame || transformed)
       case ThrustRef => true
  }

  // A reference as it is kept: a bypassed controller passes poses and twists on as they come.
  function Kept(h: Handler, reference: Reference): Reference {
    match reference
    case PoseRef(_) => if h.bypass then reference else PoseRef(h.progress.poseFrame)
    case TwistRef(_) => if h.bypass then reference else TwistRef(h.progress.twistFrame)
    case TrajectoryRef(empty, _) => TrajectoryRef(empty, h.progress.poseFrame)
    case ThrustRef => ThrustRef
  }

  function TakeReference(w: World, reference: Reference): World {
    var was := w.h.progress;
    var progress := match reference
      case PoseRef(_) => was.(refPose := true)
      case TwistRef(_) => was.(refTwist := true)
      case TrajectoryRef(_, _) => was.(refTrajectory := true)
      case ThrustRef => was.(refThrust := true);
    w.(h := w.h.(progress := progress), g := if w.h.bypass then w.g else w.g.(referenceReceived := true))
  }

  // A state update; the first one after a hover was accepted is also the hover reference.
  function TakeState(w: World, pose: Pose): (World, seq<Action>) {
    var fed := w.(h := w.h.(progress := w.h.progress.(stateAcquired := true, hoverPending := false)));
    if w.h.progress.hoverPending
    then (fed.(g := w.g.(referenceReceived := true)), [HoverInjected(pose, NO_TWIST, pose), StateFed])
    else (fed, [StateFed])
  }

  // The control timer lets a command through.
  predicate MayCommand(w: World) {
    && w.h.info.offboard && w.h.info.armed && w.h.progress.modeOut.control != HOVER && w.h.established
    && (w.h.bypass || (w.h.progress.stateAcquired && w.g.referenceReceived))
  }

  function Command(w: World, now: int, computed: bool): (World, seq<Action>) {
    var s := w.h.progress;
    var published := Published(CommandsOf(s.modeOut));
    if w.h.bypass then
      (w, if s.refPose || s.refTwist || s.refTrajectory || s.refThrust then [published] else [])
    else if now - s.lastTime <= 0 then (w, [])
    else
      var dt := Computed(now - s.lastTime);
      (w.(h := w.h.(progress := s.(lastTime := now))), if computed then [dt, published] else [dt])
  }

  function ServeActions(w: World, request: ControlMode, env: Env): seq<Action> {
    var (served, outcome) := Serve(w, request, env);
    if outcome == Settled then [ModeRequested, ModeSettled(request.control == HOVER, served.h.bypass, env.now)]
    else [ModeRequested]
  }

  // The actions of a request, and of the hover it falls back to.
  function RequestActions(w: World, request: ControlMode, env: Env, fallback: Env): seq<Action> {
    var (served, outcome) := Serve(w, request, env);
    ServeActions(w, request, env) +
    if outcome == Exhausted && request.control != HOVER then ServeActions(served, HOVER_REQUEST, fallback) else []
  }

  // Mode changes of the platform come from the handler alone.
  function Step(w: World, e: Event): (World, seq<Action>) {
    match e
    case Request(request, env, fallback) =>
      (SetControlMode(w, request, env, fallback).0, RequestActions(w, request, env, fallback))
    case StateMessage(transformed, pose) =>
      if w.h.established && !w.h.bypass && transformed then TakeState(w, pose) else (w, [])
    case ReferenceMessage(reference, transformed) =>
      if Taken(w.h, reference, transformed) then
        (TakeReference(w, reference), [ReferenceFed(Kept(w.h, reference))])
      else (w, [])
    case InfoMessage(info) => (w.(h := w.h.(info := info)), [])
    case ControlTimer(now, computed) => if MayCommand(w) then Command(w, now, computed) else (w, [])
    case PlatformEvent(event) => (if event.SetMode? then w else w.(p := P.Step(w.p, event)), [])
  }
}
