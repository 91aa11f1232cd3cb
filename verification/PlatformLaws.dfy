/** Exactly what the platform's operations do, in terms of their inputs and of its fields. */
module PlatformLaws {
  import opened Messages
  import opened ControlModes
  import opened AerialPlatform
  import opened History
  import opened PlatformRuns
  import M = PlatformStateMachine

  // Call i sets the pose frame, or the twist frame, to something.
  predicate Sets(calls: seq<FrameCall>, pose: bool, i: int) {
    0 <= i < |calls| && calls[i].SetPoseFrame? == pose && calls[i].frame != ""
  }

  ghost predicate SetsSome(calls: seq<FrameCall>, pose: bool) {
    exists i :: Sets(calls, pose, i)
  }

  predicate SetsLast(calls: seq<FrameCall>, pose: bool, i: int) {
    Sets(calls, pose, i) && forall j :: i < j < |calls| ==> !Sets(calls, pose, j)
  }

  function FrameOf(frames: Frames, pose: bool): string {
    if pose then frames.pose else frames.twist
  }

  /** A frame that is declared from scratch is the last one that is set, and none exactly if none is. */
  lemma {:induction false} DeclaredIsTheLast(calls: seq<FrameCall>, pose: bool)
    ensures FrameOf(DeclareAll(Frames("", ""), calls), pose) != "" <==> SetsSome(calls, pose)
    ensures forall i :: SetsLast(calls, pose, i) ==> FrameOf(DeclareAll(Frames("", ""), calls), pose) == calls[i].frame
  {
    if calls != [] {
      var init, n := calls[..|calls| - 1], |calls| - 1;
      DeclaredIsTheLast(init, pose);
      if Sets(calls, pose, n) {
        assert SetsLast(calls, pose, n);
      } else {
        assert forall j :: Sets(calls, pose, j) <==> Sets(init, pose, j);
        assert forall i :: SetsLast(calls, pose, i) ==> SetsLast(init, pose, i);
      }
    }
  }

  // What a mode asks of the driver: to accept it, and to declare the frames it needs.
  ghost predicate Suits(mode: ControlMode, driver: Driver) {
    && driver.accepts
    && (NeedsPose(mode) ==> SetsSome(driver.calls, true))
    && (NeedsTwist(mode) ==> SetsSome(driver.calls, false))
    && (mode.control == TRAJECTORY ==>
          forall i, j :: SetsLast(driver.calls, true, i) && SetsLast(driver.calls, false, j) ==>
            driver.calls[i].frame == driver.calls[j].frame)
  }

  lemma {:induction false} SomeLast(calls: seq<FrameCall>, pose: bool) returns (i: int)
    requires SetsSome(calls, pose)
    ensures SetsLast(calls, pose, i)
  {
    var n := |calls| - 1;
    if Sets(calls, pose, n) {
      i := n;
    } else {
      var k :| Sets(calls, pose, k);
      assert Sets(calls[..n], pose, k);
      i := SomeLast(calls[..n], pose);
      assert forall j :: i < j < |calls| ==> (Sets(calls, pose, j) ==> j == n || Sets(calls[..n], pose, j));
    }
  }

  lemma SuitsIsDriverTakes(mode: ControlMode, driver: Driver)
    ensures DriverTakes(mode, driver) <==> Suits(mode, driver)
  {
    FrameUsageSpec(mode);
    DeclaredIsTheLast(driver.calls, true);
    DeclaredIsTheLast(driver.calls, false);
    if mode.control == TRAJECTORY && SetsSome(driver.calls, true) && SetsSome(driver.calls, false) {
      var i := SomeLast(driver.calls, true);
      var j := SomeLast(driver.calls, false);
    }
  }

  /**
    A mode change is accepted exactly when the list offers the mode and the driver accepts what it resolves to
    and declares the frames that this needs, one frame for a trajectory. Then the mode is that one, the frames
    are those the driver set last, and a command is pending exactly in a mode that carries none; a refused
    change leaves everything.
  */
  lemma ModeChange(p: Platform, request: ControlMode, driver: Driver)
    ensures Resolve(request, p.available).Some? <==> Offered(request, p.available)
    ensures Change(p, request, driver).Some? <==>
              Offered(request, p.available) && Suits(Resolve(request, p.available).value, driver)
    ensures var q := AfterSetMode(p, request, driver);
            if Change(p, request, driver).Some? then
              && q.mode == Resolve(request, p.available).value
              && (q.hasNewReferences <==> q.mode.control == HOVER || q.mode.control == UNSET)
              && (forall i :: SetsLast(driver.calls, true, i) ==> q.frames.pose == driver.calls[i].frame)
              && (forall i :: SetsLast(driver.calls, false, i) ==> q.frames.twist == driver.calls[i].frame)
              && (q.frames.pose != "" <==> SetsSome(driver.calls, true))
              && (q.frames.twist != "" <==> SetsSome(driver.calls, false))
              && q == p.(mode := q.mode, frames := q.frames, hasNewReferences := q.hasNewReferences)
            else q == p
  {
    ResolveKeepsTheMode(request, p.available);
    if Offered(request, p.available) {
      SuitsIsDriverTakes(Resolve(request, p.available).value, driver);
    }
    DeclaredIsTheLast(driver.calls, true);
    DeclaredIsTheLast(driver.calls, false);
  }

  /** A HOVER, an UNSET mode and BODY_RATES are accepted whatever frames the driver declares. */
  lemma SomeNeedNoFrame(p: Platform, request: ControlMode, driver: Driver)
    requires request.control == HOVER || request.control == UNSET || request.control == BODY_RATES
    ensures Change(p, request, driver).Some? <==> Offered(request, p.available) && driver.accepts
  {
    ModeChange(p, request, driver);
    ResolveKeepsTheMode(request, p.available);
    EncodedFields(request);
    assert Decode(Encode(request)).control == request.control;
  }

  // A message has a frame, and that is the declared one or there is a transform to it.
  predicate Expressible(frame: string, declared: string, transform: bool) {
    frame != "" && (frame == declared || transform)
  }

  predicate Settled(p: Platform) {
    p.mode.control != UNSET && p.connected && p.armed && p.offboard
  }

  // The timer has something to hand to the driver.
  predicate Due(p: Platform) {
    Settled(p) && p.status != EMERGENCY && p.hasNewReferences
  }

  predicate TrajectoryReady(p: Platform, t: Transforms) {
    Expressible(p.trajectoryCommand, p.frames.pose, t.trajectory)
  }

  predicate PoseReady(p: Platform, t: Transforms) {
    Expressible(p.poseCommand, p.frames.pose, t.pose)
  }

  predicate TwistReady(p: Platform, t: Transforms) {
    Expressible(p.twistCommand, p.frames.twist, t.twist)
  }

  // Every message that the mode carries can be expressed in its declared frame.
  predicate AllReady(p: Platform, t: Transforms) {
    if p.mode.control == TRAJECTORY then TrajectoryReady(p, t)
    else (NeedsPose(p.mode) ==> PoseReady(p, t)) && (NeedsTwist(p.mode) ==> TwistReady(p, t))
  }

  /**
    What the command timer does: it sends exactly when something is due and every message of the mode can be
    expressed in its declared frame, and stops the platform exactly in an emergency. A message changes its
    frame exactly when it is one of the mode, is due, and can be expressed in the declared one; nothing else
    changes.
  */
  lemma TimerExactly(p: Platform, t: Transforms)
    ensures var o := Timer(p, t).1;
            && (o == Sent <==> Due(p) && AllReady(p, t))
            && (o == NotConverted <==> Due(p) && !AllReady(p, t))
            && (o == Stopped <==> Settled(p) && p.status == EMERGENCY)
    ensures var q := Step(p, CommandTimer(t));
            && q == p.(poseCommand := q.poseCommand, twistCommand := q.twistCommand,
                       trajectoryCommand := q.trajectoryCommand)
            && q.poseCommand ==
                 (if Due(p) && p.mode.control != TRAJECTORY && NeedsPose(p.mode) && PoseReady(p, t)
                  then p.frames.pose else p.poseCommand)
            && q.twistCommand ==
                 (if Due(p) && p.mode.control != TRAJECTORY && NeedsTwist(p.mode) && TwistReady(p, t)
                  then p.frames.twist else p.twistCommand)
            && q.trajectoryCommand ==
                 (if Due(p) && p.mode.control == TRAJECTORY && TrajectoryReady(p, t)
                  then p.frames.pose else p.trajectoryCommand)
  {
  }

  // A mode is accepted that carries no command, or one that does.
  predicate AcceptsIdle(o: Occurrence) {
    AcceptsAMode(o) && IsIdle(Step(o.before, o.event).mode)
  }

  predicate AcceptsCarrying(o: Occurrence) {
    AcceptsAMode(o) && !IsIdle(Step(o.before, o.event).mode)
  }

  predicate IsIdle(mode: ControlMode) {
    mode.control == HOVER || mode.control == UNSET
  }

  predicate MakesPending(o: Occurrence) {
    Feeds(o) || AcceptsIdle(o)
  }

  ghost predicate NeverCarrying(past: seq<Occurrence>) {
    forall i :: 0 <= i < |past| ==> !AcceptsCarrying(past[i])
  }

  lemma PendingOneStep(o: Occurrence)
    ensures Step(o.before, o.event).hasNewReferences <==>
              MakesPending(o) || (o.before.hasNewReferences && !AcceptsCarrying(o))
  {
  }

  /**
    A command is pending exactly when, since a mode that carries commands was last accepted, if ever, one has
    come, the actuators were reset, or a mode that carries none was accepted.
  */
  lemma {:induction false} PendingExactly(raw: seq<bv8>, events: seq<Event>)
    ensures var past := Past(Initial(raw), events);
            Run(Initial(raw), events).hasNewReferences <==>
              NeverCarrying(past) || Since(past, MakesPending, AcceptsCarrying)
  {
    if events != [] {
      var init := events[..|events| - 1];
      PendingExactly(raw, init);
      var past, o := Past(Initial(raw), init), Occurrence(Run(Initial(raw), init), events[|events| - 1]);
      PendingOneStep(o);
      SinceAppend(past, o, MakesPending, AcceptsCarrying);
      assert NeverCarrying(past + [o]) <==> NeverCarrying(past) && !AcceptsCarrying(o) by {
        assert (past + [o])[|past|] == o;
        assert forall i :: 0 <= i < |past| ==> (past + [o])[i] == past[i];
      }
    }
  }

  // The event that a callback feeds to the state machine, if it does.
  function FedBy(p: Platform, e: Event): Option<Int8> {
    match e
    case SetArming(true, true) => if p.armed then None else Some(EVENT_ARM)
    case SetArming(false, true) => if p.armed then Some(EVENT_DISARM) else None
    case TakeOff(true) => Some(EVENT_TOOK_OFF)
    case Land(true) => Some(EVENT_LANDED)
    case MachineEvent(event) => Some(event)
    case Alert(alert) => if alert == KILL_SWITCH || alert == EMERGENCY_HOVER then Some(EVENT_EMERGENCY) else None
    case _ => None
  }

  /** Every switch by the events that change it; the mode and its frames are changed by a request alone. */
  lemma FieldsExactly(p: Platform, e: Event)
    ensures var q := Step(p, e);
            && q.available == p.available
            && (e.SetMode? || (q.mode == p.mode && q.frames == p.frames))
            && q.armed == (if e.ResetPlatform? then false else if e.SetArming? && e.done then e.on else p.armed)
            && q.offboard == (if e.ResetPlatform? then false else if e.SetOffboard? && e.done then e.on else p.offboard)
            && q.connected == (if e.ResetPlatform? then true else if e.Connection? then e.up else p.connected)
  {
  }

  lemma StatusExactly(p: Platform, e: Event)
    ensures Step(p, e).status ==
              if e.ResetPlatform? then DISARMED
              else match FedBy(p, e) case Some(event) => M.Process(p.status, event) case None => p.status
  {
  }

  /** The commands by the events that change them. */
  lemma CommandsExactly(p: Platform, e: Event)
    requires !e.CommandTimer?
    ensures var q := Step(p, e);
            && q.poseCommand ==
                 (if e.PoseCommand? then e.frame else if e.ResetPlatform? then p.frames.pose else p.poseCommand)
            && q.twistCommand ==
                 (if e.TwistCommand? then e.frame else if e.ResetPlatform? then p.frames.twist else p.twistCommand)
            && q.trajectoryCommand ==
                 (if e.TrajectoryCommand? then e.frame
                  else if e.ResetPlatform? then p.frames.pose else p.trajectoryCommand)
  {
  }

  // What has been fed to the state machine since the last reset.
  function FedSince(p: Platform, events: seq<Event>): seq<Int8> {
    if events == [] then []
    else
      var init, e := events[..|events| - 1], events[|events| - 1];
      if e.ResetPlatform? then []
      else match FedBy(Run(p, init), e) case Some(event) => FedSince(p, init) + [event] case None => FedSince(p, init)
  }

  /**
    The flight state is what the state machine makes of the events fed since the last reset, and the accepted
    ones of them are whole flights in armed periods, up to an emergency.
  */
  lemma {:induction false} StatusIsWhatWasFed(raw: seq<bv8>, events: seq<Event>)
    ensures var (status, accepted) := M.Feed(DISARMED, FedSince(Initial(raw), events));
            Run(Initial(raw), events).status == status && M.InLanguage(accepted)
  {
    var fed := FedSince(Initial(raw), events);
    M.AcceptedLanguage(fed);
    if events != [] {
      var init, e := events[..|events| - 1], events[|events| - 1];
      var p := Run(Initial(raw), init);
      StatusIsWhatWasFed(raw, init);
      StatusExactly(p, e);
      if !e.ResetPlatform? && FedBy(p, e).Some? {
        assert fed[..|fed| - 1] == FedSince(Initial(raw), init);
      }
    }
  }

  /** Arming, taking off, landing and disarming go through the states of a flight and end where they began. */
  lemma AFlight(p: Platform)
    requires p.status == DISARMED && !p.armed
    ensures var armed := Step(p, SetArming(true, true));
            var starting := Step(armed, MachineEvent(EVENT_TAKE_OFF));
            var flying := Step(starting, TakeOff(true));
            var landing := Step(flying, MachineEvent(EVENT_LAND));
            var landed := Step(landing, Land(true));
            && armed.armed && armed.status == LANDED && starting.status == TAKING_OFF && flying.status == FLYING
            && landing.status == LANDING && landed.status == LANDED
            && Step(landed, SetArming(false, true)) == p
  {
  }
}
