/** What holds of controller and platform together, over every run of their callbacks in any order. */
module HandlerRuns {
  import opened Messages
  import opened ControlModes
  import opened History
  import opened ModeNegotiation
  import opened HandlerModel
  import opened Settlement
  import P = AerialPlatform
  import R = PlatformRuns

  // A handler and a platform that have just been built, around any plugin without references.
  ghost predicate Initial(w: World, raw: seq<bv8>) {
    && w.p == P.Initial(raw)
    && !w.h.established && !w.h.bypass && !w.h.progress.hoverPending && !w.h.progress.stateAcquired
    && !w.h.progress.refPose && !w.h.progress.refTwist && !w.h.progress.refTrajectory && !w.h.progress.refThrust
    && w.h.progress.modeIn == NO_MODE && w.h.progress.modeOut == NO_MODE && w.h.platformModes == []
    && !w.g.referenceReceived
  }

  // The state after a run and everything that was done in it.
  function Run(w: World, events: seq<Event>): (World, seq<Action>) {
    if events == [] then (w, [])
    else
      var (v, log) := Run(w, events[..|events| - 1]);
      var (u, actions) := Step(v, events[|events| - 1]);
      (u, log + actions)
  }

  predicate IsSettled(a: Action) { a.ModeSettled? }
  predicate IsBypassSettled(a: Action) { a.ModeSettled? && a.bypass }
  predicate IsPluginSettled(a: Action) { a.ModeSettled? && !a.bypass }
  predicate IsPluginHover(a: Action) { a.ModeSettled? && !a.bypass && a.hover }
  predicate IsRequested(a: Action) { a.ModeRequested? }
  predicate IsStateFed(a: Action) { a.StateFed? }
  predicate IsReferenceFed(a: Action) { a.ReferenceFed? }
  predicate FeedsPlugin(a: Action) { a.ReferenceFed? || a.HoverInjected? }
  predicate EndsHover(a: Action) { a.ModeSettled? || a.StateFed? || a.HoverInjected? }
  predicate EndsHoverOrRequested(a: Action) { EndsHover(a) || IsRequested(a) }

  // When the last settled request reset the clock, and the steps computed since.
  function ResetTime(log: seq<Action>): Option<int> {
    if log == [] then None
    else if log[|log| - 1].ModeSettled? then Some(log[|log| - 1].at)
    else ResetTime(log[..|log| - 1])
  }

  function ComputedTime(log: seq<Action>): int {
    if log == [] || log[|log| - 1].ModeSettled? then 0
    else ComputedTime(log[..|log| - 1]) + if log[|log| - 1].Computed? then log[|log| - 1].dt else 0
  }

  function CountOf(log: seq<Action>, which: Action -> bool): nat {
    if log == [] then 0
    else CountOf(log[..|log| - 1], which) + if which(log[|log| - 1]) then 1 else 0
  }

  predicate IsInjected(a: Action) { a.HoverInjected? }

  // Some reference has come since the last reset.
  predicate HasReference(s: Progress) {
    s.refPose || s.refTwist || s.refTrajectory || s.refThrust
  }

  // The flags that let a command through are what the log says.
  ghost predicate Justified(w: World, log: seq<Action>) {
    && (w.h.established && w.h.bypass <==> Since(log, IsBypassSettled, IsRequested))
    && (w.h.established && !w.h.bypass <==> Since(log, IsPluginSettled, IsRequested))
    && (w.h.progress.stateAcquired <==> Since(log, IsStateFed, IsSettled))
    && (HasReference(w.h.progress) <==> Since(log, IsReferenceFed, IsSettled))
    && (w.g.referenceReceived ==> Since(log, FeedsPlugin, IsSettled))
    && (w.h.established && !w.h.bypass && Since(log, FeedsPlugin, IsSettled) ==> w.g.referenceReceived)
  }

  ghost predicate HoverJustified(w: World, log: seq<Action>) {
    && (w.h.progress.hoverPending && w.h.established && !w.h.bypass ==> Since(log, IsPluginHover, EndsHover))
    && (Since(log, IsPluginHover, EndsHover) ==> w.h.progress.hoverPending)
    && CountOf(log, IsInjected) + (if w.h.progress.hoverPending then 1 else 0) <= CountOf(log, IsPluginHover)
  }

  ghost predicate Timed(w: World, log: seq<Action>) {
    && (forall a :: a in log && a.Computed? ==> a.dt > 0)
    && (ResetTime(log).Some? ==> ComputedTime(log) == w.h.progress.lastTime - ResetTime(log).value)
  }

  // The log is only read from its end, so one more action is a case split.
  lemma OneMore(log: seq<Action>, a: Action)
    ensures ResetTime(log + [a]) == if a.ModeSettled? then Some(a.at) else ResetTime(log)
    ensures ComputedTime(log + [a]) == if a.ModeSettled? then 0 else ComputedTime(log) + if a.Computed? then a.dt else 0
    ensures CountOf(log + [a], IsInjected) == CountOf(log, IsInjected) + if IsInjected(a) then 1 else 0
    ensures CountOf(log + [a], IsPluginHover) == CountOf(log, IsPluginHover) + if IsPluginHover(a) then 1 else 0
    ensures Since(log + [a], IsBypassSettled, IsRequested) <==>
              IsBypassSettled(a) || (Since(log, IsBypassSettled, IsRequested) && !IsRequested(a))
    ensures Since(log + [a], IsPluginSettled, IsRequested) <==>
              IsPluginSettled(a) || (Since(log, IsPluginSettled, IsRequested) && !IsRequested(a))
    ensures Since(log + [a], IsStateFed, IsSettled) <==>
              IsStateFed(a) || (Since(log, IsStateFed, IsSettled) && !IsSettled(a))
    ensures Since(log + [a], IsReferenceFed, IsSettled) <==>
              IsReferenceFed(a) || (Since(log, IsReferenceFed, IsSettled) && !IsSettled(a))
    ensures Since(log + [a], FeedsPlugin, IsSettled) <==>
              FeedsPlugin(a) || (Since(log, FeedsPlugin, IsSettled) && !IsSettled(a))
    ensures Since(log + [a], IsPluginHover, EndsHover) <==>
              IsPluginHover(a) || (Since(log, IsPluginHover, EndsHover) && !EndsHover(a))
  {
    assert (log + [a])[..|log|] == log;
    SinceAppend(log, a, IsBypassSettled, IsRequested);
    SinceAppend(log, a, IsPluginSettled, IsRequested);
    SinceAppend(log, a, IsStateFed, IsSettled);
    SinceAppend(log, a, IsReferenceFed, IsSettled);
    SinceAppend(log, a, FeedsPlugin, IsSettled);
    SinceAppend(log, a, IsPluginHover, EndsHover);
  }

  // The handler's list is the platform's, once it has been fetched.
  ghost predicate Fetched(w: World) {
    w.h.platformModes == [] || w.h.platformModes == w.p.available
  }

  ghost predicate Inv(w: World, log: seq<Action>) {
    Agreed(w) && Fetched(w) && Justified(w, log) && HoverJustified(w, log) && Timed(w, log)
  }

  // A request that settles nothing.
  lemma UnsettledKeepsInv(w: World, log: seq<Action>, v: World)
    requires Inv(w, log) && !w.h.established && !v.h.established && SameProgress(w, v) && SameConfiguration(w, v)
    ensures Inv(v, log)
  {
  }

  // A request that settles a mode in a world where none is established.
  lemma SettledKeepsInv(w: World, log: seq<Action>, v: World, hover: bool, at: int)
    requires Inv(w, log) && !w.h.established && SameConfiguration(w, v)
    requires Agreed(v) && v.h.established && JustReset(v, at)
    requires v.h.progress.hoverPending == if v.h.bypass then w.h.progress.hoverPending else hover
    ensures Inv(v, log + [ModeSettled(hover, v.h.bypass, at)])
  {
    OneMore(log, ModeSettled(hover, v.h.bypass, at));
  }

  lemma ServeKeepsInv(w: World, log: seq<Action>, request: ControlMode, env: Env)
    requires Inv(w, log) && !w.h.established
    ensures var (served, outcome) := Serve(w, request, env);
            Inv(served,
                if outcome == Settled then log + [ModeSettled(request.control == HOVER, served.h.bypass, env.now)]
                else log)
  {
    ServeSpec(w, request, env);
    var (served, outcome) := Serve(w, request, env);
    if outcome == Settled {
      SettledKeepsInv(w, log, served, request.control == HOVER, env.now);
    } else {
      UnsettledKeepsInv(w, log, served);
    }
  }

  // Beginning a request is logged, and for what follows nothing is established.
  lemma RequestedKeepsInv(w: World, log: seq<Action>)
    requires Inv(w, log)
    ensures Inv(w.(h := w.h.(established := false)), log + [ModeRequested])
  {
    OneMore(log, ModeRequested);
  }

  // A request drops the established mode before anything else, so it does not matter what it was.
  lemma ServeDropsTheMode(w: World, request: ControlMode, env: Env)
    ensures Serve(w, request, env) == Serve(w.(h := w.h.(established := false)), request, env)
  {
  }

  lemma TwoMore(log: seq<Action>, a: Action, b: Action)
    ensures log + [a, b] == log + [a] + [b]
  {
  }

  lemma ServeStep(w: World, log: seq<Action>, request: ControlMode, env: Env)
    requires Inv(w, log)
    ensures Inv(Serve(w, request, env).0, log + ServeActions(w, request, env))
  {
    RequestedKeepsInv(w, log);
    ServeDropsTheMode(w, request, env);
    ServeKeepsInv(w.(h := w.h.(established := false)), log + [ModeRequested], request, env);
    var (served, outcome) := Serve(w, request, env);
    TwoMore(log, ModeRequested, ModeSettled(request.control == HOVER, served.h.bypass, env.now));
  }

  lemma RequestStep(w: World, log: seq<Action>, request: ControlMode, env: Env, fallback: Env)
    requires Inv(w, log)
    ensures Inv(SetControlMode(w, request, env, fallback).0, log + RequestActions(w, request, env, fallback))
  {
    ServeStep(w, log, request, env);
    var (served, outcome) := Serve(w, request, env);
    var first := ServeActions(w, request, env);
    if outcome == Exhausted && request.control != HOVER {
      ServeStep(served, log + first, HOVER_REQUEST, fallback);
      var second := ServeActions(served, HOVER_REQUEST, fallback);
      assert log + (first + second) == log + first + second;
    } else {
      assert first + [] == first;
    }
  }

  // Nothing that the agreement is about has changed.
  lemma AgreedFrame(w: World, v: World)
    requires Agreed(w)
    requires v.p.mode == w.p.mode && v.g.modeIn == w.g.modeIn && v.g.modeOut == w.g.modeOut
    requires v.g.poseFrame == w.g.poseFrame && v.g.twistFrame == w.g.twistFrame
    requires v.h.progress.poseFrame == w.h.progress.poseFrame && v.h.progress.twistFrame == w.h.progress.twistFrame
    requires v.h.established == w.h.established && v.h.bypass == w.h.bypass
    requires v.h.config == w.h.config && v.h.platformModes == w.h.platformModes
    requires v.h.progress.modeIn == w.h.progress.modeIn && v.h.progress.modeOut == w.h.progress.modeOut
    ensures Agreed(v)
  {
  }

  lemma StateFedKeeps(w: World, log: seq<Action>)
    requires Inv(w, log) && w.h.established && !w.h.bypass && !w.h.progress.hoverPending
    ensures Inv(w.(h := w.h.(progress := w.h.progress.(stateAcquired := true))), log + [StateFed])
  {
    OneMore(log, StateFed);
    AgreedFrame(w, w.(h := w.h.(progress := w.h.progress.(stateAcquired := true))));
  }

  // The plugin has got its hover reference.
  function Injected(w: World): World {
    w.(h := w.h.(progress := w.h.progress.(hoverPending := false)), g := w.g.(referenceReceived := true))
  }

  lemma InjectedKeeps(w: World, log: seq<Action>, pose: Pose)
    requires Inv(w, log) && w.h.progress.hoverPending
    ensures Inv(Injected(w), log + [HoverInjected(pose, NO_TWIST, pose)])
  {
    OneMore(log, HoverInjected(pose, NO_TWIST, pose));
    AgreedFrame(w, Injected(w));
  }

  lemma ReferenceFedKeeps(w: World, log: seq<Action>, reference: Reference)
    requires Inv(w, log)
    ensures Inv(TakeReference(w, reference), log + [ReferenceFed(Kept(w.h, reference))])
  {
    OneMore(log, ReferenceFed(Kept(w.h, reference)));
    AgreedFrame(w, TakeReference(w, reference));
  }

  // The world after a step of the plugin.
  function Stepped(w: World, now: int): World {
    w.(h := w.h.(progress := w.h.progress.(lastTime := now)))
  }

  lemma ComputedKeeps(w: World, log: seq<Action>, now: int)
    requires Inv(w, log) && now > w.h.progress.lastTime
    ensures Inv(Stepped(w, now), log + [Computed(now - w.h.progress.lastTime)])
  {
    OneMore(log, Computed(now - w.h.progress.lastTime));
  }

  lemma PublishedKeeps(w: World, log: seq<Action>, commands: Commands)
    requires Inv(w, log)
    ensures Inv(w, log + [Published(commands)])
  {
    OneMore(log, Published(commands));
  }

  lemma StateStep(w: World, log: seq<Action>, e: Event)
    requires Inv(w, log) && e.StateMessage?
    ensures var (v, actions) := Step(w, e); Inv(v, log + actions)
  {
    assert log + [] == log;
    if w.h.established && !w.h.bypass && e.transformed {
      if w.h.progress.hoverPending {
        InjectedKeeps(w, log, e.pose);
        StateFedKeeps(Injected(w), log + [HoverInjected(e.pose, NO_TWIST, e.pose)]);
        TwoMore(log, HoverInjected(e.pose, NO_TWIST, e.pose), StateFed);
      } else {
        StateFedKeeps(w, log);
      }
    }
  }

  lemma ReferenceStep(w: World, log: seq<Action>, e: Event)
    requires Inv(w, log) && e.ReferenceMessage?
    ensures var (v, actions) := Step(w, e); Inv(v, log + actions)
  {
    var (v, actions) := Step(w, e);
    if Taken(w.h, e.reference, e.transformed) {
      ReferenceFedKeeps(w, log, e.reference);
      assert v == TakeReference(w, e.reference) && actions == [ReferenceFed(Kept(w.h, e.reference))];
    } else {
      assert v == w && log + actions == log;
    }
  }

  lemma PluginCommandStep(w: World, log: seq<Action>, now: int, computed: bool)
    requires Inv(w, log) && !w.h.bypass && now > w.h.progress.lastTime
    ensures var (v, actions) := Command(w, now, computed); Inv(v, log + actions)
  {
    var dt, published := Computed(now - w.h.progress.lastTime), Published(CommandsOf(w.h.progress.modeOut));
    ComputedKeeps(w, log, now);
    assert Command(w, now, computed) == (Stepped(w, now), if computed then [dt, published] else [dt]);
    if computed {
      PublishedKeeps(Stepped(w, now), log + [dt], published.commands);
      TwoMore(log, dt, published);
    }
  }

  lemma CommandStep(w: World, log: seq<Action>, now: int, computed: bool)
    requires Inv(w, log)
    ensures var (v, actions) := Command(w, now, computed); Inv(v, log + actions)
  {
    if w.h.bypass {
      PublishedKeeps(w, log, CommandsOf(w.h.progress.modeOut));
      assert Command(w, now, computed).0 == w;
      assert log + [] == log;
    } else if now > w.h.progress.lastTime {
      PluginCommandStep(w, log, now, computed);
    } else {
      assert Command(w, now, computed) == (w, []) && log + [] == log;
    }
  }

  lemma InfoKeeps(w: World, log: seq<Action>, info: Info)
    requires Inv(w, log)
    ensures Inv(w.(h := w.h.(info := info)), log)
  {
  }

  lemma PlatformEventKeeps(w: World, log: seq<Action>, event: P.Event)
    requires Inv(w, log) && !event.SetMode?
    ensures Inv(w.(p := P.Step(w.p, event)), log)
  {
  }

  lemma InvStep(v: World, log: seq<Action>, e: Event)
    requires Inv(v, log)
    ensures Inv(Step(v, e).0, log + Step(v, e).1)
  {
    assert log + [] == log;
    match e {
      case Request(request, env, fallback) => RequestStep(v, log, request, env, fallback);
      case StateMessage(_, _) => StateStep(v, log, e);
      case ReferenceMessage(_, _) => ReferenceStep(v, log, e);
      case ControlTimer(now, computed) => CommandStep(v, log, now, computed);
      case InfoMessage(info) => InfoKeeps(v, log, info);
      case PlatformEvent(event) => if !event.SetMode? { PlatformEventKeeps(v, log, event); }
    }
  }

  lemma {:induction false} InvRun(w: World, raw: seq<bv8>, events: seq<Event>)
    requires Initial(w, raw)
    ensures var (v, log) := Run(w, events); Inv(v, log)
  {
    if events != [] {
      var init := events[..|events| - 1];
      InvRun(w, raw, init);
      InvStep(Run(w, init).0, Run(w, init).1, events[|events| - 1]);
    }
  }

  /** In every reachable state the two sides agree on the established mode. */
  lemma AgreementAlways(w: World, raw: seq<bv8>, events: seq<Event>)
    requires Initial(w, raw)
    ensures Agreed(Run(w, events).0)
  {
    InvRun(w, raw, events);
  }

  /** The established input is not below the output, as the messages say it, when every listed mode has an encoding. */
  lemma EstablishedLevels(w: World)
    requires Agreed(w) && w.h.established && !w.h.bypass
    requires forall c :: c in w.h.config.modesIn || c in w.h.platformModes ==> WellFormed(c)
    ensures Level(Encode(w.h.progress.modeIn)) >= Level(Encode(w.h.progress.modeOut))
  {
  }

  // The plugin is in force, and has had a state and a reference since it was settled.
  ghost predicate PluginIsFed(log: seq<Action>) {
    && Since(log, IsPluginSettled, IsRequested)
    && Since(log, IsStateFed, IsSettled) && Since(log, FeedsPlugin, IsSettled)
  }

  // The controller is bypassed, and a reference has come since that was settled.
  ghost predicate BypassIsFed(log: seq<Action>) {
    Since(log, IsBypassSettled, IsRequested) && Since(log, IsReferenceFed, IsSettled)
  }

  // The platform was last heard to be ready, and the output in force is not a HOVER.
  predicate MayBeCommanded(w: World) {
    w.h.info.armed && w.h.info.offboard && w.h.progress.modeOut.control != HOVER
  }

  lemma CommandsBy(w: World, e: Event, commands: Commands)
    ensures Published(commands) in Step(w, e).1 <==>
              && e.ControlTimer? && commands == CommandsOf(w.h.progress.modeOut) && MayBeCommanded(w) && w.h.established
              && (if w.h.bypass then HasReference(w.h.progress)
                  else
                    && w.h.progress.stateAcquired && w.g.referenceReceived
                    && e.now > w.h.progress.lastTime && e.computed)
  {
  }

  /**
    A command is published exactly by a control timer, when the platform was last heard to be armed and in
    offboard mode, an output other than HOVER is in force, and since it was settled there has been a reference,
    if the controller is bypassed, and otherwise a state update and a reference of the plugin, time has passed,
    and the plugin has computed an output. It is the messages of the mode in force.
  */
  lemma PublishingIsGated(w: World, raw: seq<bv8>, events: seq<Event>, e: Event, commands: Commands)
    requires Initial(w, raw)
    ensures var (v, log) := Run(w, events);
            Published(commands) in Step(v, e).1 <==>
              && e.ControlTimer? && commands == CommandsOf(v.h.progress.modeOut) && MayBeCommanded(v)
              && (BypassIsFed(log) || (PluginIsFed(log) && e.now > v.h.progress.lastTime && e.computed))
  {
    InvRun(w, raw, events);
    CommandsBy(Run(w, events).0, e, commands);
  }

  /**
    Every step handed to the plugin is positive, and the steps since the last reset add up to the time
    from that reset to the last one of them.
  */
  lemma StepsAddUp(w: World, raw: seq<bv8>, events: seq<Event>)
    requires Initial(w, raw)
    ensures var (v, log) := Run(w, events);
            && (forall a :: a in log && a.Computed? ==> a.dt > 0)
            && (ResetTime(log).Some? ==> ComputedTime(log) == v.h.progress.lastTime - ResetTime(log).value)
  {
    InvRun(w, raw, events);
  }

  // A hover that the plugin serves is in force, and no state update has come since it was settled.
  ghost predicate HoverAwaitsState(log: seq<Action>) {
    Since(log, IsPluginHover, EndsHoverOrRequested)
  }

  lemma HoverAwaitsStateParts(log: seq<Action>)
    ensures HoverAwaitsState(log) <==> Since(log, IsPluginHover, EndsHover) && Since(log, IsPluginSettled, IsRequested)
  {
  }

  lemma InjectedBy(w: World, e: Event, pose: Pose, twist: Twist, setpoint: Pose)
    ensures HoverInjected(pose, twist, setpoint) in Step(w, e).1 <==>
              && e.StateMessage? && e.transformed && e.pose == pose == setpoint && twist == NO_TWIST
              && w.h.established && !w.h.bypass && w.h.progress.hoverPending
  {
  }

  /**
    A hover reference is injected exactly by the first state update with a transform after a hover that the
    plugin serves was settled, when no other request has come: with the pose of that update and a zero twist.
    There are never more of them than such hovers.
  */
  lemma HoverIsInjectedOnce(w: World, raw: seq<bv8>, events: seq<Event>, e: Event, pose: Pose, twist: Twist,
                            setpoint: Pose)
    requires Initial(w, raw)
    ensures HoverInjected(pose, twist, setpoint) in Step(Run(w, events).0, e).1 <==>
              && e.StateMessage? && e.transformed && e.pose == pose == setpoint && twist == NO_TWIST
              && HoverAwaitsState(Run(w, events).1)
    ensures CountOf(Run(w, events).1, IsInjected) <= CountOf(Run(w, events).1, IsPluginHover)
  {
    InvRun(w, raw, events);
    HoverAwaitsStateParts(Run(w, events).1);
    InjectedBy(Run(w, events).0, e, pose, twist, setpoint);
  }

  // The messages that the platform converts for a mode are among the published ones.
  predicate Covers(commands: Commands, mode: ControlMode) {
    if mode.control == TRAJECTORY then commands.trajectory
    else (NeedsPose(mode) ==> commands.pose) && (NeedsTwist(mode) ==> commands.twist)
  }

  // An attitude without a yaw reference.
  predicate LacksYaw(mode: ControlMode) {
    mode.control == ATTITUDE && mode.yaw != YAW_ANGLE && mode.yaw != YAW_SPEED
  }

  /**
    What the controller publishes is what the platform that it has settled with uses, except in ATTITUDE without
    a yaw reference, where the platform waits for a twist that is not sent, and the rates of BODY_RATES and the
    thrust of ATTITUDE and BODY_RATES, which the platform does not convert.
  */
  lemma PublishedIsWhatThePlatformUses(w: World, raw: seq<bv8>, events: seq<Event>, e: Event, commands: Commands)
    requires Initial(w, raw)
    requires Published(commands) in Step(Run(w, events).0, e).1
    ensures var mode := Run(w, events).0.p.mode;
            && (Covers(commands, mode) <==> !LacksYaw(mode))
            && (commands.trajectory <==> mode.control == TRAJECTORY)
            && (commands.pose <==> NeedsPose(mode) && mode.control != TRAJECTORY)
            && (commands.twist <==>
                  mode.control == BODY_RATES || (NeedsTwist(mode) && mode.control != TRAJECTORY && !LacksYaw(mode)))
            && (commands.thrust <==> mode.control == ATTITUDE || mode.control == BODY_RATES)
  {
    PublishingIsGated(w, raw, events, e, commands);
    AgreementAlways(w, raw, events);
    InvRun(w, raw, events);
  }

  const ATTITUDE_ONLY := ControlMode(ATTITUDE, YAW_NONE)

  // Everything is delivered, answered and accepted.
  function Accepting(): Env {
    var delivery := Delivery(true, true, P.Driver([P.SetPoseFrame("odom"), P.SetTwistFrame("odom")], true));
    Env(true, delivery, i => delivery, i => PluginReply(true, "odom", "odom"), delivery, NO_MODE, 0)
  }

  const ATTITUDE_REQUEST := Request(ATTITUDE_ONLY, Accepting(), Accepting())
  const ARMED_NEWS := InfoMessage(Info(true, true, ATTITUDE_ONLY))
  const POSE := ReferenceMessage(PoseRef("odom"), true)

  lemma DriverTakesAttitude()
    ensures P.DriverTakes(ATTITUDE_ONLY, Accepting().restore.driver)
  {
  }

  lemma AttitudeIsSettled(w: World)
    requires Initial(w, [0x38]) && w.h.config.useBypass
    ensures var v := Step(w, ATTITUDE_REQUEST).0;
            && v.h.established && v.h.bypass && v.p.mode == v.h.progress.modeIn == v.h.progress.modeOut == ATTITUDE_ONLY
  {
    var env := Accepting();
    assert [0x38 as bv8][..0] == [] && Loaded([0x38]) == [0x38];
    assert 0x38 in [0x38 as bv8] && Encode(ATTITUDE_ONLY) == 0x38 && Decode(0x38) == ATTITUDE_ONLY;
    var (ready, pairs) := Prepare(w, ATTITUDE_ONLY, env);
    assert pairs == [(UNSET_MODE_MASK, 0x38)] && ready.h.bypass;
    DriverTakesAttitude();
    ListedModeResolvesToItself(0x38, [0x38]);
    assert Try(ready, pairs[0], env.platform(0), env.plugin(0)).settled;
  }

  lemma RunOneMore(w: World, events: seq<Event>)
    requires events != []
    ensures Run(w, events).0 == Step(Run(w, events[..|events| - 1]).0, events[|events| - 1]).0
  {
  }

  lemma RunOfThree(w: World, a: Event, b: Event, c: Event)
    ensures Run(w, [a, b, c]).0 == Step(Step(Step(w, a).0, b).0, c).0
  {
    RunOneMore(w, [a]);
    RunOneMore(w, [a, b]);
    RunOneMore(w, [a, b, c]);
    assert [a, b, c][..2] == [a, b] && [a, b][..1] == [a] && [a][..0] == [];
  }

  // News and a reference let a bypassed command through.
  lemma AttitudeIsCommanded(v: World)
    requires v.h.established && v.h.bypass && v.p.mode == v.h.progress.modeIn == v.h.progress.modeOut == ATTITUDE_ONLY
    ensures IncompleteCommand(Step(Step(v, ARMED_NEWS).0, POSE).0)
  {
    var u := Step(Step(v, ARMED_NEWS).0, POSE).0;
    assert Step(u, ControlTimer(0, true)).1 == [Published(CommandsOf(ATTITUDE_ONLY))];
  }

  // The next timer publishes a command that the platform waits to be completed.
  ghost predicate IncompleteCommand(v: World) {
    exists e, commands :: Step(v, e).1 == [Published(commands)] && !Covers(commands, v.p.mode)
  }

  /** The exception is reached: a run after which the platform gets less than it waits for. */
  lemma AttitudeWithoutYawIsPublished(w: World)
    requires Initial(w, [0x38]) && w.h.config.useBypass
    ensures IncompleteCommand(Run(w, [ATTITUDE_REQUEST, ARMED_NEWS, POSE]).0)
  {
    AttitudeIsSettled(w);
    RunOfThree(w, ATTITUDE_REQUEST, ARMED_NEWS, POSE);
    AttitudeIsCommanded(Step(w, ATTITUDE_REQUEST).0);
  }

  // The lists that a request is served from never change, but for the one that is fetched once.
  lemma {:induction false} RunKeepsLists(w: World, raw: seq<bv8>, events: seq<Event>)
    requires Initial(w, raw)
    ensures var v := Run(w, events).0;
            v.h.config == w.h.config && v.p.available == Loaded(raw) && Fetched(v)
  {
    if events != [] {
      var init, e := events[..|events| - 1], events[|events| - 1];
      RunKeepsLists(w, raw, init);
      var v := Run(w, init).0;
      match e {
        case Request(request, env, fallback) => SetControlModeSpec(v, request, env, fallback);
        case PlatformEvent(event) => R.StepFrame(v.p, event);
        case _ =>
      }
    }
  }

  // What the network, the driver and the plugin have to say to a pair, when its turn comes.
  predicate Accepted(env: Env, i: nat, pair: Pair) {
    var d := env.platform(i);
    d.reached && d.answered && P.DriverTakes(Decode(pair.1), d.driver) && env.plugin(i).accepts
  }

  // The pairs of a request that the plugin is to serve.
  lemma PairsOfRequest(v: World, request: ControlMode, env: Env)
    requires Fetched(v)
    ensures var (ready, pairs) := Prepare(v, request, env);
            pairs != [] && !ready.h.bypass ==>
              && ready.h.platformModes == v.p.available
              && pairs == ModePairs(Encode(if request.control == HOVER then env.hoverMode else request),
                                    v.h.config.preferred, v.h.config.modesIn, v.h.config.modesOut, v.p.available)
  {
  }

  lemma PairWorks(ready: World, input: bv8, pairs: seq<Pair>, env: Env, i: nat)
    requires Canonical(ready.p.available) && forall c :: c in ready.p.available ==> WellFormed(c)
    requires pairs == ModePairs(input, ready.h.config.preferred, ready.h.config.modesIn, ready.h.config.modesOut,
                                ready.p.available)
    requires !ready.h.bypass && i < |pairs|
    ensures WorksAt(ready, pairs, env, i) <==> Accepted(env, i, pairs[i])
  {
    PairsSpec(input, ready.h.config.preferred, ready.h.config.modesIn, ready.h.config.modesOut, ready.p.available,
              pairs[i]);
    NegotiatedPairsResolve(ready, pairs, env, i);
  }

  // A world in which a request finds the best pair, if any pair works.
  ghost predicate SettlesBest(v: World, request: ControlMode, env: Env, fallback: Env, works: Pair -> bool) {
    var pairs := Prepare(v, request, env).1;
    var (after, answer) := SetControlMode(v, request, env, fallback);
    && (answer <==> exists p :: p in pairs && works(p))
    && (answer ==> exists best ::
          && Best(pairs, works, PreferredOutput(v.h.config.preferred, v.p.available), best)
          && after.h.established
          && after.h.progress.modeIn == Decode(best.0) && after.h.progress.modeOut == Decode(best.1))
  }

  // The plugin is to serve the request, and the answers to each pair are as `works` says.
  ghost predicate AnswersAs(v: World, request: ControlMode, env: Env, works: Pair -> bool) {
    var (ready, pairs) := Prepare(v, request, env);
    && pairs != [] && !ready.h.bypass
    && forall i :: 0 <= i < |pairs| ==> (Accepted(env, i, pairs[i]) <==> works(pairs[i]))
  }

  // The established modes are those of the settled pair, if there is one.
  lemma SettledModes(v: World, request: ControlMode, env: Env, fallback: Env)
    ensures var (ready, pairs) := Prepare(v, request, env);
            var settled := TryFrom(ready, pairs, env, 0).settled;
            var (after, answer) := SetControlMode(v, request, env, fallback);
            && (pairs != [] ==> (answer <==> settled.Some?))
            && (settled.Some? && !ready.h.bypass ==>
                  && after.h.established && after.h.progress.modeIn == Decode(pairs[settled.value].0)
                  && after.h.progress.modeOut == Decode(pairs[settled.value].1))
  {
    var (ready, pairs) := Prepare(v, request, env);
    TryFromSpec(ready, pairs, env, 0);
  }

  lemma BestIsSettled(v: World, request: ControlMode, env: Env, fallback: Env, works: Pair -> bool)
    requires Fetched(v) && Sorted(v.h.config.modesOut) && Canonical(v.p.available)
    requires forall c :: c in v.p.available ==> WellFormed(c)
    requires AnswersAs(v, request, env, works)
    ensures SettlesBest(v, request, env, fallback, works)
  {
    PairsOfRequest(v, request, env);
    PrepareSpec(v, request, env);
    SettledModes(v, request, env, fallback);
    var (ready, pairs) := Prepare(v, request, env);
    var input := Encode(if request.control == HOVER then env.hoverMode else request);
    forall i | 0 <= i < |pairs| ensures WorksAt(ready, pairs, env, i) == works(pairs[i]) {
      PairWorks(ready, input, pairs, env, i);
    }
    SettlesTheBest(ready, input, env, works);
  }

  /**
    In every reachable state, if the platform's list is one of encodable modes and the plugin's are sorted: a
    request that the plugin is to serve is answered with success exactly if some pair works, and then the
    established modes are those of the best pair, which is the one with the preferred output if that works,
    and else the one with the lowest output that works.
  */
  lemma SettledModeIsTheBest(w: World, raw: seq<bv8>, events: seq<Event>, request: ControlMode, env: Env,
                             fallback: Env, works: Pair -> bool)
    requires Initial(w, raw) && Sorted(w.h.config.modesOut) && forall c :: c in Loaded(raw) ==> WellFormed(c)
    requires AnswersAs(Run(w, events).0, request, env, works)
    ensures SettlesBest(Run(w, events).0, request, env, fallback, works)
  {
    RunKeepsLists(w, raw, events);
    LoadedIsCanonical(raw);
    BestIsSettled(Run(w, events).0, request, env, fallback, works);
  }
}
