/** Where a request that is tried in vain leaves the platform, and when that is where it was. */
module Rollback {
  import opened Messages
  import opened ControlModes
  import opened ModeNegotiation
  import opened HandlerModel
  import opened Settlement
  import P = AerialPlatform
  import R = PlatformRuns

  // The platform takes a pair, whether its answer comes back or not.
  predicate Reaches(p: P.Platform, mode: ControlMode, d: Delivery) {
    d.reached && P.Change(p, mode, d.driver).Some?
  }

  // The mode of the last pair from i on that the platform takes.
  function LastTaken(p: P.Platform, pairs: seq<Pair>, env: Env, i: nat): Option<ControlMode>
    requires i <= |pairs|
    decreases |pairs| - i
  {
    if i == |pairs| then None
    else
      match LastTaken(p, pairs, env, i + 1)
      case Some(mode) => Some(mode)
      case None =>
        var mode := Decode(pairs[i].1);
        if Reaches(p, mode, env.platform(i)) then Some(P.Change(p, mode, env.platform(i).driver).value.0) else None
  }

  lemma {:induction false} LastTakenByList(p: P.Platform, q: P.Platform, pairs: seq<Pair>, env: Env, i: nat)
    requires i <= |pairs| && p.available == q.available
    ensures LastTaken(p, pairs, env, i) == LastTaken(q, pairs, env, i)
    decreases |pairs| - i
  {
    if i < |pairs| {
      LastTakenByList(p, q, pairs, env, i + 1);
      ChangeByList(p, q, Decode(pairs[i].1), env.platform(i).driver);
    }
  }

  // What the platform was last brought into is a mode that its list offers.
  lemma {:induction false} LastTakenIsOffered(p: P.Platform, pairs: seq<Pair>, env: Env, i: nat)
    requires i <= |pairs|
    ensures LastTaken(p, pairs, env, i).Some? ==> Offered(LastTaken(p, pairs, env, i).value, p.available)
    decreases |pairs| - i
  {
    if i < |pairs| {
      LastTakenIsOffered(p, pairs, env, i + 1);
      ResolveKeepsTheMode(Decode(pairs[i].1), p.available);
    }
  }

  // Some pair from i on is seen to be taken.
  ghost predicate SeenFrom(p: P.Platform, pairs: seq<Pair>, env: Env, i: nat) {
    exists j :: i <= j < |pairs| && PlatformTakes(p, Decode(pairs[j].1), env.platform(j))
  }

  lemma SeenStep(p: P.Platform, pairs: seq<Pair>, env: Env, i: nat)
    requires i < |pairs|
    ensures SeenFrom(p, pairs, env, i) <==>
              PlatformTakes(p, Decode(pairs[i].1), env.platform(i)) || SeenFrom(p, pairs, env, i + 1)
  {
  }

  lemma SeenByList(p: P.Platform, q: P.Platform, pairs: seq<Pair>, env: Env, i: nat)
    requires p.available == q.available
    ensures SeenFrom(p, pairs, env, i) <==> SeenFrom(q, pairs, env, i)
  {
  }

  function ModeOr(mode: Option<ControlMode>, otherwise: ControlMode): ControlMode {
    match mode
    case Some(m) => m
    case None => otherwise
  }

  // Where vain attempts leave the platform, and what the handler has seen of them.
  lemma {:induction false} VainAttempts(w: World, pairs: seq<Pair>, env: Env, i: nat)
    requires i <= |pairs| && TryFrom(w, pairs, env, i).settled.None?
    ensures var r := TryFrom(w, pairs, env, i);
            && r.world.p.mode == ModeOr(LastTaken(w.p, pairs, env, i), w.p.mode)
            && (r.platformAccepted <==> SeenFrom(w.p, pairs, env, i))
    decreases |pairs| - i
  {
    if i < |pairs| {
      var mode := Decode(pairs[i].1);
      AskSpec(w, mode, env.platform(i));
      var attempt := Try(w, pairs[i], env.platform(i), env.plugin(i));
      VainAttempts(attempt.world, pairs, env, i + 1);
      LastTakenByList(attempt.world.p, w.p, pairs, env, i + 1);
      SeenByList(attempt.world.p, w.p, pairs, env, i + 1);
      SeenStep(w.p, pairs, env, i);
    }
  }

  // The handler has seen some pair taken, so it asks the platform to go back.
  ghost predicate AsksToGoBack(w: World, request: ControlMode, env: Env) {
    var (ready, pairs) := Prepare(w, request, env);
    SeenFrom(w.p, pairs, env, 0)
  }

  // Going back gets to the platform, which offers the mode in the news and whose driver takes it.
  predicate GoesBack(w: World, env: Env) {
    var back := Resolve(w.h.info.mode, w.p.available);
    env.restore.reached && back.Some? && P.DriverTakes(back.value, env.restore.driver)
  }

  // The mode in which the attempts leave the platform.
  function LeftIn(w: World, request: ControlMode, env: Env): ControlMode {
    var (ready, pairs) := Prepare(w, request, env);
    ModeOr(LastTaken(w.p, pairs, env, 0), ready.p.mode)
  }

  /**
    Where a request that is tried in vain leaves the platform, before any fallback and whatever is lost: if
    some pair was seen to be taken and going back goes through, in the mode of the handler's last news, and
    otherwise in the mode of the last pair that it took, seen or not. So it is back in its entry mode exactly
    when that is the same mode, up to the yaw mode of a HOVER.
  */
  lemma RollbackSpec(w: World, request: ControlMode, env: Env)
    requires Serve(w, request, env).1 == Exhausted
    ensures var after := Serve(w, request, env).0.p.mode;
            && after == (if AsksToGoBack(w, request, env) && GoesBack(w, env)
                         then Resolve(w.h.info.mode, w.p.available).value else LeftIn(w, request, env))
            && (SameMode(after, w.p.mode) <==>
                  if AsksToGoBack(w, request, env) && GoesBack(w, env)
                  then SameMode(Decode(Encode(w.h.info.mode)), w.p.mode)
                  else SameMode(LeftIn(w, request, env), w.p.mode))
  {
    var (ready, pairs) := Prepare(w, request, env);
    PrepareSpec(w, request, env);
    var tried := TryFrom(ready, pairs, env, 0);
    TryFromSpec(ready, pairs, env, 0);
    VainAttempts(ready, pairs, env, 0);
    LastTakenByList(ready.p, w.p, pairs, env, 0);
    SeenByList(ready.p, w.p, pairs, env, 0);
    ChangeByList(tried.world.p, w.p, w.h.info.mode, env.restore.driver);
    ResolveKeepsTheMode(w.h.info.mode, w.p.available);
  }

  // Every request that reaches the platform is answered.
  ghost predicate NothingLost(env: Env) {
    forall i :: env.platform(i).reached ==> env.platform(i).answered
  }

  // Going back gets to the platform, and its driver takes what that resolves to.
  predicate WillingToGoBack(w: World, env: Env) {
    var back := Resolve(w.h.info.mode, w.p.available);
    env.restore.reached && (back.Some? ==> P.DriverTakes(back.value, env.restore.driver))
  }

  lemma {:induction false} TakenIsSeen(p: P.Platform, pairs: seq<Pair>, env: Env, i: nat)
    requires i <= |pairs| && NothingLost(env)
    ensures LastTaken(p, pairs, env, i).Some? <==> SeenFrom(p, pairs, env, i)
    decreases |pairs| - i
  {
    if i < |pairs| {
      TakenIsSeen(p, pairs, env, i + 1);
      SeenStep(p, pairs, env, i);
    }
  }

  /**
    When no answer is lost and the driver is willing, a vain request, other than one that a bypass begins
    with a hover, leaves the platform in its entry mode exactly if it has taken none of the pairs, or the
    handler's news is of that mode and the list offers it. With other news only a mode that the last pair
    shares with it, and a list that does not offer the news, would leave it there as well.
  */
  lemma RollsBack(w: World, request: ControlMode, env: Env)
    requires Serve(w, request, env).1 == Exhausted && NothingLost(env) && WillingToGoBack(w, env)
    requires request.control != HOVER || !w.h.config.useBypass
    ensures var entry, back := w.p.mode, Decode(Encode(w.h.info.mode));
            SameMode(Serve(w, request, env).0.p.mode, entry) <==>
              || !AsksToGoBack(w, request, env)
              || (if Offered(w.h.info.mode, w.p.available) then SameMode(back, entry)
                  else SameMode(LeftIn(w, request, env), entry))
    ensures w.h.info.mode == w.p.mode && Recognized(w.p.mode) ==>
              (SameMode(Serve(w, request, env).0.p.mode, w.p.mode) <==>
                 !AsksToGoBack(w, request, env) || Offered(w.p.mode, w.p.available))
  {
    var (ready, pairs) := Prepare(w, request, env);
    PrepareSpec(w, request, env);
    RollbackSpec(w, request, env);
    TakenIsSeen(w.p, pairs, env, 0);
    LastTakenIsOffered(w.p, pairs, env, 0);
    ResolveKeepsTheMode(w.h.info.mode, w.p.available);
    RoundTrip(w.p.mode, 0);
    if SameMode(LeftIn(w, request, env), w.p.mode) {
      OfferedBySame(LeftIn(w, request, env), w.p.mode, w.p.available);
    }
  }

  /**
    The same for a reachable platform with a list of encodable modes, of which the handler's news is fresh:
    it is back in exactly its entry mode, unless a pair was taken and the entry mode is the one before any
    change and its key is not listed.
  */
  lemma RollsBackToReachable(w: World, request: ControlMode, env: Env)
    requires Serve(w, request, env).1 == Exhausted && NothingLost(env) && WillingToGoBack(w, env)
    requires request.control != HOVER || !w.h.config.useBypass
    requires R.Inv(w.p) && w.h.info.mode == w.p.mode
    requires forall c :: c in w.p.available ==> Key(c) == c && WellFormed(c)
    ensures Serve(w, request, env).0.p.mode == w.p.mode <==>
              !AsksToGoBack(w, request, env) || w.p.mode != NO_MODE || UNSET_KEY in w.p.available
  {
    RollsBack(w, request, env);
    RollbackSpec(w, request, env);
    PrepareSpec(w, request, env);
    R.OnlyUnsetIsNotOffered(w.p);
    TakenIsSeen(w.p, Prepare(w, request, env).1, env, 0);
    ResolveKeepsTheMode(w.p.mode, w.p.available);
    RoundTrip(w.p.mode, 0);
    if c :| c in w.p.available && Decode(c) == w.p.mode {
      RoundTrip(w.p.mode, c);
    }
  }

  /**
    Going back to the mode before any change is refused by every platform whose list does not hold its key.
    So a vain request of which a pair was taken leaves the platform in the mode of the last one taken, which
    is not where it was, whatever the driver, the network and the plugin answer.
  */
  lemma UnsetIsNotRestored(w: World, request: ControlMode, env: Env)
    requires w.h.info.mode == w.p.mode == NO_MODE && forall c :: c in w.p.available ==> Key(c) != UNSET_KEY
    ensures forall driver :: P.Change(w.p, NO_MODE, driver) == None
    ensures Serve(w, request, env).1 == Exhausted ==>
              && Serve(w, request, env).0.p.mode == LeftIn(w, request, env)
              && (LastTaken(w.p, Prepare(w, request, env).1, env, 0).Some? ==>
                    !SameMode(Serve(w, request, env).0.p.mode, NO_MODE))
  {
    UnsetIsOfferedByItsKey(w.p.available);
    ResolveKeepsTheMode(NO_MODE, w.p.available);
    if Serve(w, request, env).1 == Exhausted {
      RollbackSpec(w, request, env);
      LastTakenIsOffered(w.p, Prepare(w, request, env).1, env, 0);
      if SameMode(LeftIn(w, request, env), NO_MODE) {
        OfferedBySame(LeftIn(w, request, env), NO_MODE, w.p.available);
      }
    }
  }

  const POSITION_MODE := ControlMode(POSITION, YAW_ANGLE)
  const SPEED_MODE := ControlMode(SPEED, YAW_ANGLE)

  // A handler with some news of a platform, and a plugin that turns positions into speeds.
  function Example(p: P.Platform, news: ControlMode): World {
    var progress := Progress(NO_MODE, NO_MODE, "odom", "odom", false, false, false, false, false, false, 0);
    World(Handler(Config([0x60], [0x40], 0, false), [], false, false, progress, Info(false, false, news)),
          p, Plugin(NO_MODE, NO_MODE, "odom", "odom", false, false), 0)
  }

  // A platform that takes positions and speeds, just built and in a mode.
  const NEW_PLATFORM := P.Initial([0x60, 0x40])
  const POSITIONED := NEW_PLATFORM.(mode := POSITION_MODE, frames := P.Frames("odom", "odom"))

  // Everything is delivered, answered and accepted, but the plugin refuses.
  function Refusing(): Env {
    var delivery := Delivery(true, true, P.Driver([P.SetPoseFrame("odom"), P.SetTwistFrame("odom")], true));
    Env(true, delivery, i => delivery, i => PluginReply(false, "odom", "odom"), delivery, NO_MODE, 0)
  }

  lemma ExampleLists()
    ensures Loaded([0x60, 0x40]) == [0x60, 0x40]
    ensures ModePairs(0x60, 0, [0x60], [0x40], [0x60, 0x40]) == [(0x60, 0x40)]
    ensures Decode(0x60) == POSITION_MODE && Decode(0x40) == SPEED_MODE && Encode(POSITION_MODE) == 0x60
    ensures Resolve(SPEED_MODE, [0x60, 0x40]) == Some(SPEED_MODE)
  {
  }

  lemma UnsetIsNotInTheExample()
    ensures !Offered(NO_MODE, [0x60, 0x40]) && Resolve(NO_MODE, [0x60, 0x40]) == None
  {
  }

  // The one pair of the example is tried, taken by the platform and refused by the plugin.
  lemma ExampleRun(p: P.Platform, news: ControlMode)
    requires p.available == [0x60, 0x40]
    ensures var w := Example(p, news);
            && Serve(w, POSITION_MODE, Refusing()).1 == Exhausted
            && AsksToGoBack(w, POSITION_MODE, Refusing()) && LeftIn(w, POSITION_MODE, Refusing()) == SPEED_MODE
  {
    ExampleLists();
    var w, env := Example(p, news), Refusing();
    var (ready, pairs) := Prepare(w, POSITION_MODE, env);
    assert pairs == [(0x60, 0x40)];
    DriverOfExample();
    assert PlatformTakes(w.p, Decode(pairs[0].1), env.platform(0));
    assert LastTaken(w.p, pairs, env, 1) == None;
  }

  lemma DriverOfExample()
    ensures P.DriverTakes(SPEED_MODE, Refusing().restore.driver)
    ensures P.DriverTakes(POSITION_MODE, Refusing().restore.driver)
  {
  }

  /** Fresh news is not enough: a platform that has just been built ends in the mode that was tried. */
  lemma FreshNewsIsNotEnough()
    ensures var w := Example(NEW_PLATFORM, NO_MODE);
            && w.h.info.mode == w.p.mode && NothingLost(Refusing()) && WillingToGoBack(w, Refusing())
            && Serve(w, POSITION_MODE, Refusing()).1 == Exhausted
            && Serve(w, POSITION_MODE, Refusing()).0.p.mode == SPEED_MODE
  {
    ExampleLists();
    UnsetIsNotInTheExample();
    ExampleRun(NEW_PLATFORM, NO_MODE);
    RollbackSpec(Example(NEW_PLATFORM, NO_MODE), POSITION_MODE, Refusing());
  }

  /** Stale news is taken at its word: going back is accepted and leads elsewhere. */
  lemma StaleNewsLeadsElsewhere()
    ensures var w := Example(POSITIONED, SPEED_MODE);
            && R.Inv(w.p) && GoesBack(w, Refusing()) && NothingLost(Refusing())
            && Serve(w, POSITION_MODE, Refusing()).1 == Exhausted
            && Serve(w, POSITION_MODE, Refusing()).0.p.mode == SPEED_MODE
            && !SameMode(SPEED_MODE, w.p.mode)
  {
    ExampleLists();
    ExampleRun(POSITIONED, SPEED_MODE);
    DriverOfExample();
    RollbackSpec(Example(POSITIONED, SPEED_MODE), POSITION_MODE, Refusing());
    assert 0x60 in POSITIONED.available;
  }
}
