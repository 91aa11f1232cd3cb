/** Every run of the handler is, for the platform, a run of its own callbacks with mode requests in between. */
module PlatformTraces {
  import opened Messages
  import opened ControlModes
  import opened History
  import opened HandlerModel
  import opened HandlerRuns
  import P = AerialPlatform
  import R = PlatformRuns

  // What the platform is called for, other than a mode.
  function Own(events: seq<P.Event>): seq<P.Event> {
    if events == [] then []
    else Own(events[..|events| - 1]) + if events[|events| - 1].SetMode? then [] else [events[|events| - 1]]
  }

  // The same in a run of the handler.
  function OwnOf(events: seq<Event>): seq<P.Event> {
    if events == [] then []
    else
      var e := events[|events| - 1];
      OwnOf(events[..|events| - 1]) + if e.PlatformEvent? && !e.event.SetMode? then [e.event] else []
  }

  // A run of the platform with these callbacks, in this order, and any mode requests in between.
  ghost predicate Reaches(p: P.Platform, own: seq<P.Event>, q: P.Platform) {
    exists events :: R.Run(p, events) == q && Own(events) == own
  }

  lemma {:induction false} Appended(p: P.Platform, a: seq<P.Event>, b: seq<P.Event>)
    ensures R.Run(p, a + b) == R.Run(R.Run(p, a), b) && Own(a + b) == Own(a) + Own(b)
    decreases |b|
  {
    if b == [] {
      assert a + b == a;
    } else {
      Appended(p, a, b[..|b| - 1]);
      assert (a + b)[..|a + b| - 1] == a + b[..|b| - 1];
    }
  }

  lemma ReachesOn(p: P.Platform, a: seq<P.Event>, q: P.Platform, b: seq<P.Event>, r: P.Platform)
    requires Reaches(p, a, q) && Reaches(q, b, r)
    ensures Reaches(p, a + b, r)
  {
    var first :| R.Run(p, first) == q && Own(first) == a;
    var second :| R.Run(q, second) == r && Own(second) == b;
    Appended(p, first, second);
  }

  lemma OneEvent(p: P.Platform, e: P.Event)
    ensures Reaches(p, if e.SetMode? then [] else [e], P.Step(p, e))
  {
    var one := [e];
    assert one[..|one| - 1] == [];
    assert R.Run(p, one) == P.Step(p, e) && Own(one) == Own([]) + if e.SetMode? then [] else [e];
  }

  lemma NoEvent(p: P.Platform)
    ensures Reaches(p, [], p)
  {
    assert R.Run(p, []) == p;
  }

  lemma AskReaches(w: World, mode: ControlMode, d: Delivery)
    ensures Reaches(w.p, [], Ask(w, mode, d).0.p)
  {
    NoEvent(w.p);
    OneEvent(w.p, P.SetMode(mode, d.driver));
  }

  lemma {:induction false} TryFromReaches(w: World, pairs: seq<(bv8, bv8)>, env: Env, i: nat)
    requires i <= |pairs|
    ensures Reaches(w.p, [], TryFrom(w, pairs, env, i).world.p)
    decreases |pairs| - i
  {
    NoEvent(w.p);
    if i < |pairs| {
      var next := Try(w, pairs[i], env.platform(i), env.plugin(i)).world;
      AskReaches(w, Decode(pairs[i].1), env.platform(i));
      TryFromReaches(next, pairs, env, i + 1);
      ReachesOn(w.p, [], next.p, [], TryFrom(next, pairs, env, i + 1).world.p);
    }
  }

  lemma PrepareReaches(w: World, request: ControlMode, env: Env)
    ensures Reaches(w.p, [], Prepare(w, request, env).0.p)
  {
    NoEvent(w.p);
    var listed := FetchModes(w.(h := w.h.(established := false)), env);
    if listed.Some? {
      AskReaches(listed.value, HOVER_REQUEST, env.hover);
    }
  }

  lemma ServeReaches(w: World, request: ControlMode, env: Env)
    ensures Reaches(w.p, [], Serve(w, request, env).0.p)
  {
    var (ready, pairs) := Prepare(w, request, env);
    var tried := TryFrom(ready, pairs, env, 0).world;
    var restored := Ask(tried, w.h.info.mode, env.restore).0;
    PrepareReaches(w, request, env);
    TryFromReaches(ready, pairs, env, 0);
    ReachesOn(w.p, [], ready.p, [], tried.p);
    AskReaches(tried, w.h.info.mode, env.restore);
    ReachesOn(w.p, [], tried.p, [], restored.p);
  }

  lemma StepReaches(w: World, e: Event)
    ensures Reaches(w.p, if e.PlatformEvent? && !e.event.SetMode? then [e.event] else [], Step(w, e).0.p)
  {
    NoEvent(w.p);
    match e {
      case Request(request, env, fallback) =>
        var served := Serve(w, request, env).0;
        ServeReaches(w, request, env);
        ServeReaches(served, HOVER_REQUEST, fallback);
        ReachesOn(w.p, [], served.p, [], Serve(served, HOVER_REQUEST, fallback).0.p);
      case PlatformEvent(event) => OneEvent(w.p, event);
      case _ =>
    }
  }

  /**
    Whatever the handler does, its platform goes through a run of its own: exactly the callbacks of the
    handler's run in their order, with mode requests in between. So what holds of every run of the platform
    holds under the handler.
  */
  lemma {:induction false} EveryRunIsAPlatformRun(w: World, events: seq<Event>)
    ensures Reaches(w.p, OwnOf(events), Run(w, events).0.p)
  {
    if events == [] {
      NoEvent(w.p);
    } else {
      var init, e := events[..|events| - 1], events[|events| - 1];
      var v := Run(w, init).0;
      EveryRunIsAPlatformRun(w, init);
      StepReaches(v, e);
      ReachesOn(w.p, OwnOf(init), v.p, if e.PlatformEvent? && !e.event.SetMode? then [e.event] else [],
                Step(v, e).0.p);
    }
  }

  /**
    The platform keeps its own invariant under the handler's requests: in every reachable state the
    references of its mode have frames, and its mode is one of its configuration.
  */
  lemma PlatformAlways(w: World, raw: seq<bv8>, events: seq<Event>)
    requires Initial(w, raw)
    ensures R.Inv(Run(w, events).0.p)
  {
    EveryRunIsAPlatformRun(w, events);
    var own :| R.Run(w.p, own) == Run(w, events).0.p && Own(own) == OwnOf(events);
    R.InvRun(raw, own);
  }

  predicate IsAlarm(e: P.Event) {
    e.Alert? && P.Emergency(e.alert)
  }

  predicate IsResetting(e: P.Event) {
    e.ResetPlatform?
  }

  // Mode requests neither raise an alarm nor reset.
  lemma {:induction false} AlarmsArePast(p: P.Platform, events: seq<P.Event>)
    requires Since(Own(events), IsAlarm, IsResetting)
    ensures Since(R.Past(p, events), R.IsEmergency, R.IsReset)
  {
    if events != [] {
      var init, e := events[..|events| - 1], events[|events| - 1];
      SinceAppend(R.Past(p, init), R.Occurrence(R.Run(p, init), e), R.IsEmergency, R.IsReset);
      if e.SetMode? {
        assert Own(events) == Own(init);
        AlarmsArePast(p, init);
      } else {
        SinceAppend(Own(init), e, IsAlarm, IsResetting);
        if !IsAlarm(e) {
          AlarmsArePast(p, init);
        }
      }
    }
  }

  /**
    No request to the handler, and nothing else that it does, gets its platform out of an emergency: between an
    alert and a reset the state is EMERGENCY and the driver is handed no command.
  */
  lemma EmergencyHolds(w: World, raw: seq<bv8>, events: seq<Event>, t: P.Transforms)
    requires Initial(w, raw) && Since(OwnOf(events), IsAlarm, IsResetting)
    ensures var p := Run(w, events).0.p;
            p.status == EMERGENCY && P.Timer(p, t).1 in {P.Idle, P.Stopped}
  {
    EveryRunIsAPlatformRun(w, events);
    var own :| R.Run(w.p, own) == Run(w, events).0.p && Own(own) == OwnOf(events);
    AlarmsArePast(w.p, own);
    R.EmergencyLatches(raw, own, t);
  }
}
