/** What holds of the platform over every run of its callbacks, in any order. */
module PlatformRuns {
  import opened Messages
  import opened ControlModes
  import opened AerialPlatform
  import opened History

  function Run(p: Platform, events: seq<Event>): Platform {
    if events == [] then p else Step(Run(p, events[..|events| - 1]), events[|events| - 1])
  }

  // Every reference the mode carries has a frame, and a trajectory has a single one.
  predicate FramesSuit(mode: ControlMode, frames: Frames) {
    && (NeedsPose(mode) ==> frames.pose != "")
    && (NeedsTwist(mode) ==> frames.twist != "")
    && (mode.control == TRAJECTORY ==> frames.pose == frames.twist)
  }

  // The mode is the one the platform was built with or an available one, and its frames are declared.
  ghost predicate Inv(p: Platform) {
    && (p.mode == NO_MODE || exists c :: c in p.available && Decode(c) == p.mode)
    && FramesSuit(p.mode, p.frames)
    && EMERGENCY <= p.status <= LANDING
  }

  lemma SetModeKeepsInv(p: Platform, request: ControlMode, driver: Driver)
    requires Inv(p)
    ensures Inv(AfterSetMode(p, request, driver))
  {
    ResolveKeepsTheMode(request, p.available);
    FrameUsageSpec(AfterSetMode(p, request, driver).mode);
  }

  // Only a request changes the mode and its frames.
  lemma StepFrame(p: Platform, e: Event)
    ensures Step(p, e).available == p.available
    ensures !e.SetMode? ==> Step(p, e).mode == p.mode && Step(p, e).frames == p.frames
  {
  }

  lemma StepStatus(p: Platform, e: Event)
    requires EMERGENCY <= p.status <= LANDING
    ensures EMERGENCY <= Step(p, e).status <= LANDING
  {
  }

  lemma InvStep(p: Platform, e: Event)
    requires Inv(p)
    ensures Inv(Step(p, e))
    ensures Step(p, e).available == p.available
  {
    StepFrame(p, e);
    StepStatus(p, e);
    if e.SetMode? {
      SetModeKeepsInv(p, e.request, e.driver);
    }
  }

  /**
    In every reachable state every reference of the current mode has a declared frame, a trajectory has
    one frame for both, and the mode is one the configuration names, or the one before any change.
  */
  lemma {:induction false} InvRun(raw: seq<bv8>, events: seq<Event>)
    ensures Inv(Run(Initial(raw), events))
    ensures Run(Initial(raw), events).available == Loaded(raw)
  {
    if events != [] {
      InvRun(raw, events[..|events| - 1]);
      InvStep(Run(Initial(raw), events[..|events| - 1]), events[|events| - 1]);
    }
  }

  // An event and the state it starts in.
  datatype Occurrence = Occurrence(before: Platform, event: Event)

  function Past(p: Platform, events: seq<Event>): seq<Occurrence> {
    if events == [] then []
    else
      var init := events[..|events| - 1];
      Past(p, init) + [Occurrence(Run(p, init), events[|events| - 1])]
  }

  predicate AcceptsAMode(o: Occurrence) {
    o.event.SetMode? && Change(o.before, o.event.request, o.event.driver).Some?
  }

  predicate Feeds(o: Occurrence) {
    var e := o.event;
    e.PoseCommand? || e.TwistCommand? || e.TrajectoryCommand? || e.ThrustCommand? || e.ResetPlatform?
  }

  // A command or a reset of the actuators has come since a mode was last accepted.
  ghost predicate Fed(p: Platform, events: seq<Event>) {
    Since(Past(p, events), Feeds, AcceptsAMode)
  }

  lemma PendingStep(o: Occurrence)
    ensures var q := Step(o.before, o.event);
            q.hasNewReferences && q.mode.control != HOVER && q.mode.control != UNSET ==>
              Feeds(o) || (!AcceptsAMode(o) && o.before.hasNewReferences && q.mode == o.before.mode)
  {
  }

  // References are only pending in a mode that carries some if one came since it was accepted.
  lemma {:induction false} PendingWasFed(raw: seq<bv8>, events: seq<Event>)
    ensures var p := Run(Initial(raw), events);
            p.hasNewReferences && p.mode.control != HOVER && p.mode.control != UNSET ==> Fed(Initial(raw), events)
  {
    if events != [] {
      var init := events[..|events| - 1];
      PendingWasFed(raw, init);
      var o := Occurrence(Run(Initial(raw), init), events[|events| - 1]);
      PendingStep(o);
      SinceAppend(Past(Initial(raw), init), o, Feeds, AcceptsAMode);
    }
  }

  // The messages that a mode carries are in the frames declared for it.
  predicate InDeclaredFrames(p: Platform) {
    if p.mode.control == TRAJECTORY then p.trajectoryCommand == p.frames.pose == p.frames.twist
    else
      && (NeedsPose(p.mode) ==> p.poseCommand == p.frames.pose)
      && (NeedsTwist(p.mode) ==> p.twistCommand == p.frames.twist)
  }

  /**
    Whenever the command timer hands a command to the driver, the platform is settled, connected, armed,
    in offboard mode and not in emergency; every message of the mode is in its declared frame, which is
    not empty; and, unless the mode is HOVER, a command or a reset has come since it was accepted.
  */
  lemma SentCommandsAreGated(raw: seq<bv8>, events: seq<Event>, t: Transforms)
    requires Timer(Run(Initial(raw), events), t).1 == Sent
    ensures var p := Timer(Run(Initial(raw), events), t).0;
            && p.mode.control != UNSET && p.connected && p.armed && p.offboard && p.status != EMERGENCY
            && InDeclaredFrames(p) && FramesSuit(p.mode, p.frames)
            && (p.mode.control != HOVER ==> Fed(Initial(raw), events))
  {
    InvRun(raw, events);
    PendingWasFed(raw, events);
    FrameUsageSpec(Run(Initial(raw), events).mode);
  }

  predicate IsEmergency(o: Occurrence) {
    o.event.Alert? && Emergency(o.event.alert)
  }

  predicate IsReset(o: Occurrence) {
    o.event.ResetPlatform?
  }

  lemma EmergencyStep(p: Platform, e: Event)
    requires EMERGENCY <= p.status <= LANDING
    ensures e.Alert? && Emergency(e.alert) ==> Step(p, e).status == EMERGENCY
    ensures p.status == EMERGENCY && !e.ResetPlatform? ==> Step(p, e).status == EMERGENCY
  {
  }

  /**
    After a kill switch or an emergency hover, and until the platform is reset, the state is EMERGENCY
    and no command is handed to the driver, whatever else happens.
  */
  lemma {:induction false} EmergencyLatches(raw: seq<bv8>, events: seq<Event>, t: Transforms)
    requires Since(Past(Initial(raw), events), IsEmergency, IsReset)
    ensures Run(Initial(raw), events).status == EMERGENCY
    ensures Timer(Run(Initial(raw), events), t).1 in {Idle, Stopped}
  {
    if events != [] {
      var init, last := events[..|events| - 1], events[|events| - 1];
      var p := Run(Initial(raw), init);
      InvRun(raw, init);
      EmergencyStep(p, last);
      SinceAppend(Past(Initial(raw), init), Occurrence(p, last), IsEmergency, IsReset);
      if !IsEmergency(Occurrence(p, last)) {
        EmergencyLatches(raw, init, t);
      }
    }
  }

  predicate BringsATwist(e: Event) {
    e.TwistCommand? || e.ResetPlatform?
  }

  lemma NoTwistStep(p: Platform, e: Event)
    requires p.twistCommand == "" && !BringsATwist(e)
    ensures Step(p, e).twistCommand == ""
  {
  }

  lemma NoTwistTimer(p: Platform, t: Transforms)
    requires p.twistCommand == "" && p.mode.control != TRAJECTORY && NeedsTwist(p.mode)
    ensures Timer(p, t).1 != Sent
  {
  }

  /**
    A platform that has no twist sends nothing in a mode that uses one, until a twist comes or the platform is
    reset.
  */
  lemma {:induction false} TwistIsWaitedFor(p: Platform, events: seq<Event>, t: Transforms)
    requires p.twistCommand == "" && forall i :: 0 <= i < |events| ==> !BringsATwist(events[i])
    ensures Run(p, events).twistCommand == ""
    ensures var q := Run(p, events);
            q.mode.control != TRAJECTORY && NeedsTwist(q.mode) ==> Timer(q, t).1 != Sent
  {
    var q := Run(p, events);
    if events != [] {
      TwistIsWaitedFor(p, events[..|events| - 1], t);
      NoTwistStep(Run(p, events[..|events| - 1]), events[|events| - 1]);
    }
    if q.mode.control != TRAJECTORY && NeedsTwist(q.mode) {
      NoTwistTimer(q, t);
    }
  }

  /**
    Asking a platform with the same modes for the mode of some reachable state brings that mode back, up to
    the yaw mode of a HOVER, exactly when the list offers it and the driver takes what it resolves to.
  */
  lemma RestoreBringsTheModeBack(p: Platform, q: Platform, driver: Driver)
    requires Inv(p) && q.available == p.available
    ensures Resolve(p.mode, p.available).Some? <==> Offered(p.mode, p.available)
    ensures Change(q, p.mode, driver).Some? <==>
              Offered(p.mode, p.available) && DriverTakes(Resolve(p.mode, p.available).value, driver)
    ensures Change(q, p.mode, driver).Some? ==> SameMode(AfterSetMode(q, p.mode, driver).mode, p.mode)
  {
    ResolveKeepsTheMode(p.mode, q.available);
    RoundTrip(p.mode, 0);
    if c :| c in p.available && Decode(c) == p.mode {
      RoundTrip(p.mode, c);
    }
  }

  /**
    On a list of modes with an encoding the mode of a reachable state is brought back exactly, if the driver
    takes it, and it is always offered, unless it is the one before any change and its key is not listed.
  */
  lemma OnlyUnsetIsNotOffered(p: Platform)
    requires Inv(p) && forall c :: c in p.available ==> Key(c) == c && WellFormed(c)
    ensures Offered(p.mode, p.available) <==> (p.mode == NO_MODE ==> UNSET_KEY in p.available)
    ensures Offered(p.mode, p.available) ==> Resolve(p.mode, p.available) == Some(p.mode)
  {
  }
}
