/** Exactly what the handler's callbacks do, over every run. */
module HandlerLaws {
  import opened Messages
  import opened ControlModes
  import opened History
  import opened HandlerModel
  import opened Settlement
  import opened HandlerRuns

  // A mode is in force that the plugin serves.
  ghost predicate PluginInForce(log: seq<Action>) {
    Since(log, IsPluginSettled, IsRequested)
  }

  lemma StateFedBy(w: World, e: Event)
    ensures StateFed in Step(w, e).1 <==> e.StateMessage? && e.transformed && w.h.established && !w.h.bypass
  {
  }

  /** The plugin is fed exactly the state updates with a transform that come while it is in force. */
  lemma StatesAreFed(w: World, raw: seq<bv8>, events: seq<Event>, e: Event)
    requires Initial(w, raw)
    ensures var (v, log) := Run(w, events);
            StateFed in Step(v, e).1 <==> e.StateMessage? && e.transformed && PluginInForce(log)
  {
    InvRun(w, raw, events);
    StateFedBy(Run(w, events).0, e);
  }

  lemma ComputedBy(w: World, e: Event, dt: int)
    ensures Computed(dt) in Step(w, e).1 <==>
              && e.ControlTimer? && MayBeCommanded(w) && w.h.established && !w.h.bypass
              && w.h.progress.stateAcquired && w.g.referenceReceived
              && e.now > w.h.progress.lastTime && dt == e.now - w.h.progress.lastTime
  {
  }

  /**
    The plugin computes exactly when the control timer finds the platform ready, the plugin in force with a
    state and a reference since it was settled, and time gone by; the step is the time since the last one.
  */
  lemma StepsAreComputed(w: World, raw: seq<bv8>, events: seq<Event>, e: Event, dt: int)
    requires Initial(w, raw)
    ensures var (v, log) := Run(w, events);
            Computed(dt) in Step(v, e).1 <==>
              && e.ControlTimer? && MayBeCommanded(v) && PluginIsFed(log)
              && e.now > v.h.progress.lastTime && dt == e.now - v.h.progress.lastTime
    ensures Computed(dt) in Step(Run(w, events).0, e).1 ==> Step(Run(w, events).0, e).0.h.progress.lastTime == e.now
  {
    InvRun(w, raw, events);
    ComputedBy(Run(w, events).0, e, dt);
  }

  // What becomes of a reference: it is passed on, expressed in the frames of the handler, or dropped.
  predicate BecomesKept(w: World, reference: Reference, transformed: bool, kept: Reference) {
    var s := w.h.progress;
    match reference
    case PoseRef(_) => if w.h.bypass then kept == reference else transformed && kept == PoseRef(s.poseFrame)
    case TwistRef(_) => if w.h.bypass then kept == reference else transformed && kept == TwistRef(s.twistFrame)
    case TrajectoryRef(empty, frame) =>
      && !empty && s.poseFrame == s.twistFrame && kept == TrajectoryRef(false, s.poseFrame)
      && (frame == s.poseFrame || transformed)
    case ThrustRef => kept == ThrustRef
  }

  lemma ReferenceFedBy(w: World, e: Event, kept: Reference)
    ensures ReferenceFed(kept) in Step(w, e).1 <==>
              && e.ReferenceMessage? && (w.h.established || w.h.bypass)
              && w.h.progress.modeIn.control != HOVER && w.h.progress.modeIn.control != UNSET
              && BecomesKept(w, e.reference, e.transformed, kept)
  {
  }

  // The frame of a reference is the one that the plugin wants for it.
  predicate InPluginFrame(g: Plugin, kept: Reference) {
    match kept
    case PoseRef(frame) => frame == g.poseFrame
    case TwistRef(frame) => frame == g.twistFrame
    case TrajectoryRef(empty, frame) => !empty && frame == g.poseFrame == g.twistFrame
    case ThrustRef => true
  }

  /**
    A reference is kept exactly while the handler listens, in a mode that is neither HOVER nor UNSET; a pose or
    a twist only if it is passed on by a bypassed controller or has a transform, a trajectory only if it has
    points, one frame serves it, and it is in that frame or has a transform to it. So every reference that the
    plugin gets is in the frame that it wants.
  */
  lemma ReferencesAreKept(w: World, raw: seq<bv8>, events: seq<Event>, e: Event, kept: Reference)
    requires Initial(w, raw)
    ensures var v := Run(w, events).0;
            ReferenceFed(kept) in Step(v, e).1 <==>
              && e.ReferenceMessage? && (v.h.established || v.h.bypass)
              && v.h.progress.modeIn.control != HOVER && v.h.progress.modeIn.control != UNSET
              && BecomesKept(v, e.reference, e.transformed, kept)
    ensures var v := Run(w, events).0;
            ReferenceFed(kept) in Step(v, e).1 && !v.h.bypass ==> InPluginFrame(v.g, kept)
  {
    InvRun(w, raw, events);
    ReferenceFedBy(Run(w, events).0, e, kept);
  }

  // The last news of the platform, or what the handler began with.
  function LastNews(w: World, events: seq<Event>): Info {
    if events == [] then w.h.info
    else if events[|events| - 1].InfoMessage? then events[|events| - 1].info
    else LastNews(w, events[..|events| - 1])
  }

  /** What the handler knows of the platform is the last news that came. */
  lemma {:induction false} NewsIsTheLast(w: World, events: seq<Event>)
    ensures Run(w, events).0.h.info == LastNews(w, events)
  {
    if events != [] {
      var init, e := events[..|events| - 1], events[|events| - 1];
      NewsIsTheLast(w, init);
      if e.Request? {
        SetControlModeSpec(Run(w, init).0, e.request, e.env, e.fallback);
      }
    }
  }
}
