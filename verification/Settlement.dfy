/** What one call of the service that changes the control mode does, whatever it is answered. */
module Settlement {
  import opened Messages
  import opened ControlModes
  import opened ModeNegotiation
  import opened HandlerModel
  import P = AerialPlatform

  // An input that is not below the output it is paired with, among the modes of the two lists.
  ghost predicate LevelsAgree(h: Handler) {
    exists a, b :: a in h.config.modesIn && b in h.platformModes && Level(a) >= Level(b)
                   && Decode(a) == h.progress.modeIn && Decode(b) == h.progress.modeOut
  }

  /**
    While a mode is established the platform is in the output mode, up to the yaw mode of a HOVER, and
    either the controller is bypassed, with one mode for both ends, or the last pair that the plugin
    accepted is the established one, its input is not below its output, and references are taken in the
    frames that the plugin wants.
  */
  ghost predicate Agreed(w: World) {
    w.h.established ==>
      && SameMode(w.p.mode, w.h.progress.modeOut)
      && (if w.h.bypass then w.h.progress.modeIn == w.h.progress.modeOut
          else
            && w.g.modeIn == w.h.progress.modeIn && w.g.modeOut == w.h.progress.modeOut && LevelsAgree(w.h)
            && w.h.progress.poseFrame == w.g.poseFrame && w.h.progress.twistFrame == w.g.twistFrame)
  }

  // The platform's part of a pair, as the driver and the network answer it.
  predicate PlatformTakes(p: P.Platform, mode: ControlMode, d: Delivery) {
    d.reached && d.answered && P.Change(p, mode, d.driver).Some?
  }

  // Whether a pair works when its turn comes; no earlier attempt has a part in it.
  predicate WorksAt(w: World, pairs: seq<Pair>, env: Env, i: nat)
    requires i < |pairs|
  {
    PlatformTakes(w.p, Decode(pairs[i].1), env.platform(i)) && (w.h.bypass || env.plugin(i).accepts)
  }

  lemma ChangeByList(p: P.Platform, q: P.Platform, mode: ControlMode, driver: P.Driver)
    requires p.available == q.available
    ensures P.Change(p, mode, driver) == P.Change(q, mode, driver)
  {
  }

  lemma AskSpec(w: World, mode: ControlMode, d: Delivery)
    ensures var (asked, accepted) := Ask(w, mode, d);
            && asked.h == w.h && asked.g == w.g && asked.requests == w.requests + 1
            && asked.p.available == w.p.available
            && (accepted <==> PlatformTakes(w.p, mode, d))
            && (accepted ==> SameMode(asked.p.mode, Decode(Encode(mode))))
            && (d.answered && !accepted ==> asked.p == w.p)
  {
    ResolveKeepsTheMode(mode, w.p.available);
  }

  // The state in which attempts from i on end.
  lemma {:induction false} TryFromSpec(w: World, pairs: seq<Pair>, env: Env, i: nat)
    requires i <= |pairs|
    ensures var r := TryFrom(w, pairs, env, i);
            && r.world.h == w.h && r.world.p.available == w.p.available
            && r.world.g.hoverEnabled == w.g.hoverEnabled && r.world.g.referenceReceived == w.g.referenceReceived
            && r.world.requests <= w.requests + |pairs| - i
            && (w.h.bypass || r.settled.None? ==>
                  r.world.g.modeIn == w.g.modeIn && r.world.g.modeOut == w.g.modeOut)
            && (r.settled.Some? ==>
                  var pair := pairs[r.settled.value];
                  && SameMode(r.world.p.mode, Decode(pair.1))
                  && (!w.h.bypass ==> r.world.g.modeIn == Decode(pair.0) && r.world.g.modeOut == Decode(pair.1)))
    decreases |pairs| - i
  {
    if i < |pairs| {
      AskSpec(w, Decode(pairs[i].1), env.platform(i));
      RoundTrip(Decode(pairs[i].1), pairs[i].1);
      var attempt := Try(w, pairs[i], env.platform(i), env.plugin(i));
      if !attempt.settled {
        TryFromSpec(attempt.world, pairs, env, i + 1);
      }
    }
  }

  /** The pair that is settled is the first one that works, and none is settled only when none does. */
  lemma {:induction false} SettlesTheFirst(w: World, pairs: seq<Pair>, env: Env, i: nat)
    requires i <= |pairs|
    ensures match TryFrom(w, pairs, env, i).settled
            case Some(k) => WorksAt(w, pairs, env, k) && forall j :: i <= j < k ==> !WorksAt(w, pairs, env, j)
            case None => forall j :: i <= j < |pairs| ==> !WorksAt(w, pairs, env, j)
    decreases |pairs| - i
  {
    if i < |pairs| {
      AskSpec(w, Decode(pairs[i].1), env.platform(i));
      var attempt := Try(w, pairs[i], env.platform(i), env.plugin(i));
      assert attempt.settled <==> WorksAt(w, pairs, env, i);
      if !attempt.settled {
        SettlesTheFirst(attempt.world, pairs, env, i + 1);
        forall j | i + 1 <= j < |pairs|
          ensures WorksAt(attempt.world, pairs, env, j) == WorksAt(w, pairs, env, j)
        {
          ChangeByList(attempt.world.p, w.p, Decode(pairs[j].1), env.platform(j).driver);
        }
      }
    }
  }

  // The pairs that the handler finds for an input.
  function HandlerPairs(h: Handler, input: bv8): seq<Pair> {
    ModePairs(input, h.config.preferred, h.config.modesIn, h.config.modesOut, h.platformModes)
  }

  /**
    When the answers depend on the pair alone, the settled pair is the preferred output if that works,
    and else the lowest output that works, among all the pairs that could serve the request.
  */
  lemma SettlesTheBest(w: World, input: bv8, env: Env, works: Pair -> bool)
    requires Sorted(w.h.config.modesOut) && Canonical(w.h.platformModes)
    requires var pairs := HandlerPairs(w.h, input);
             forall i :: 0 <= i < |pairs| ==> WorksAt(w, pairs, env, i) == works(pairs[i])
    ensures var pairs := HandlerPairs(w.h, input);
            match TryFrom(w, pairs, env, 0).settled
            case Some(i) => Best(pairs, works, PreferredOutput(w.h.config.preferred, w.h.platformModes), pairs[i])
            case None => forall p :: p in pairs ==> !works(p)
  {
    var pairs := HandlerPairs(w.h, input);
    SettledIsBest(input, w.h.config.preferred, w.h.config.modesIn, w.h.config.modesOut, w.h.platformModes, works);
    SettlesTheFirst(w, pairs, env, 0);
    FirstWorkingSpec(pairs, works);
    var settled := TryFrom(w, pairs, env, 0).settled;
    if settled.Some? {
      assert works(pairs[settled.value]);
    }
  }

  /**
    On the platform's own list a pair that the negotiation found is always resolved to its own output,
    so only the driver, its frames, the network and the plugin decide whether it works.
  */
  lemma NegotiatedPairsResolve(w: World, pairs: seq<Pair>, env: Env, i: nat)
    requires i < |pairs| && pairs[i].1 in w.p.available
    requires Key(pairs[i].1) == pairs[i].1 && WellFormed(pairs[i].1)
    ensures Resolve(Decode(pairs[i].1), w.p.available) == Some(Decode(pairs[i].1))
    ensures WorksAt(w, pairs, env, i) <==>
      var d := env.platform(i);
      && d.reached && d.answered && d.driver.accepts
      && P.FramesDeclared(Decode(pairs[i].1), P.DeclareAll(P.Frames("", ""), d.driver.calls))
      && (w.h.bypass || env.plugin(i).accepts)
  {
  }

  lemma {:induction false} PairsAreFew(input: bv8, outputs: seq<bv8>, preferred: bv8, outs: seq<bv8>,
                                       platform: seq<bv8>)
    ensures |PairsOf(input, outputs)| <= |outputs|
    ensures |OutputModes(preferred, outs, platform)| <= |outs| + 1
    decreases |outputs| + |outs|
  {
    if outputs != [] {
      PairsAreFew(input, outputs[..|outputs| - 1], preferred, outs, platform);
    }
    if outs != [] {
      PairsAreFew(input, outputs, preferred, outs[..|outs| - 1], platform);
    }
  }

  // Nothing has changed but what every request decides anew.
  ghost predicate SameProgress(w: World, v: World) {
    && v.h.progress == w.h.progress
    && v.g.hoverEnabled == w.g.hoverEnabled && v.g.referenceReceived == w.g.referenceReceived
  }

  // The list of platform modes may have been fetched.
  ghost predicate SameConfiguration(w: World, v: World) {
    && v.h.config == w.h.config && v.h.info == w.h.info && v.p.available == w.p.available
    && (v.h.platformModes == w.h.platformModes || (w.h.platformModes == [] && v.h.platformModes == w.p.available))
  }

  // The mode that a request asks the plugin for.
  function Wanted(request: ControlMode, env: Env): ControlMode {
    Decode(Encode(if request.control == HOVER then env.hoverMode else request))
  }

  // A pair that serves the request, once the bypass is decided.
  ghost predicate Suits(h: Handler, request: ControlMode, env: Env, pair: Pair) {
    if h.bypass then
      if request.control == HOVER then pair.1 == HOVER_MODE_MASK else Decode(pair.1) == Wanted(request, env)
    else
      && Decode(pair.0) == Wanted(request, env) && Level(pair.0) >= Level(pair.1)
      && pair.0 in h.config.modesIn && pair.1 in h.platformModes
  }

  // Deciding on the bypass changes the bypass, and the platform when it is asked to hover.
  lemma TryBypassSpec(w: World, request: ControlMode, env: Env)
    ensures var (decided, output) := TryBypass(w, request, env);
            && SameConfiguration(w, decided) && SameProgress(w, decided) && decided.g == w.g
            && decided.h.established == w.h.established && decided.h.platformModes == w.h.platformModes
            && decided.requests <= w.requests + (if request.control == HOVER then 1 else 0)
            && (request.control != HOVER || !w.h.config.useBypass ==> decided.p == w.p)
            && (decided.h.bypass ==> Suits(decided.h, request, env, (UNSET_MODE_MASK, output)))
  {
    AskSpec(w, HOVER_REQUEST, env.hover);
    var input := Encode(request);
    LastMatchSpec(input, w.h.platformModes, MATCH_MODE_AND_YAW);
    DecodeByKey(input, BypassMode(input, w.h.platformModes));
  }

  lemma PairsToTrySpec(w: World, request: ControlMode, output: bv8, env: Env)
    requires w.h.bypass ==> Suits(w.h, request, env, (UNSET_MODE_MASK, output))
    ensures var pairs := PairsToTry(w, request, output, env);
            && |pairs| <= |w.h.config.modesOut| + 1
            && (forall p :: p in pairs ==> Suits(w.h, request, env, p))
  {
    if !w.h.bypass {
      var input := Encode(if request.control == HOVER then env.hoverMode else request);
      var resolved := ResolvedInput(input, w.h.config.modesIn);
      PairsAreFew(if resolved.Some? then resolved.value else 0,
                  OutputModes(w.h.config.preferred, w.h.config.modesOut, w.h.platformModes),
                  w.h.config.preferred, w.h.config.modesOut, w.h.platformModes);
      forall p | p in HandlerPairs(w.h, input)
        ensures Suits(w.h, request, env, p)
      {
        PairsSpec(input, w.h.config.preferred, w.h.config.modesIn, w.h.config.modesOut, w.h.platformModes, p);
        DecodeByKey(input, p.0);
      }
    }
  }

  // What is ready to be tried: nothing has changed but the list, the bypass and the answer to a hover.
  lemma PrepareSpec(w: World, request: ControlMode, env: Env)
    ensures var (ready, pairs) := Prepare(w, request, env);
            && !ready.h.established && SameConfiguration(w, ready) && SameProgress(w, ready) && ready.g == w.g
            && |pairs| <= |w.h.config.modesOut| + 1
            && ready.requests <= w.requests + (if request.control == HOVER then 1 else 0)
            && (request.control != HOVER || !w.h.config.useBypass ==> ready.p == w.p)
            && (w.h.platformModes != [] ==> ready.h.platformModes == w.h.platformModes)
            && (forall p :: p in pairs ==> Suits(ready.h, request, env, p))
  {
    var listed := FetchModes(w.(h := w.h.(established := false)), env);
    if listed.Some? {
      var (decided, output) := TryBypass(listed.value, request, env);
      TryBypassSpec(listed.value, request, env);
      PairsToTrySpec(decided, request, output, env);
    }
  }

  // A request that was settled: the mode in force is the one it asks for.
  ghost predicate Served(w: World, request: ControlMode, env: Env) {
    && w.h.established
    && (if w.h.bypass then
          w.h.progress.modeOut == if request.control == HOVER then HOVER_REQUEST else Wanted(request, env)
        else
          && w.h.progress.modeIn == Wanted(request, env)
          && w.h.progress.hoverPending == w.g.hoverEnabled == (request.control == HOVER))
  }

  // What a settled request has just reset.
  ghost predicate JustReset(w: World, at: int) {
    && w.h.progress.lastTime == at && !w.h.progress.stateAcquired && !w.g.referenceReceived
    && !w.h.progress.refPose && !w.h.progress.refTwist && !w.h.progress.refTrajectory && !w.h.progress.refThrust
  }

  // A suitable pair that both sides have accepted.
  lemma SettleSpec(w: World, request: ControlMode, env: Env, pair: Pair)
    requires Suits(w.h, request, env, pair) && SameMode(w.p.mode, Decode(pair.1))
    requires !w.h.bypass ==> w.g.modeIn == Decode(pair.0) && w.g.modeOut == Decode(pair.1)
    ensures var settled := Settle(w, pair, request.control == HOVER, env.now);
            && Agreed(settled) && Served(settled, request, env) && JustReset(settled, env.now)
            && (w.h.bypass ==> settled.h.progress.hoverPending == w.h.progress.hoverPending)
  {
  }

  // What an outcome says of the world it is reached in.
  ghost predicate OutcomeSpec(w: World, request: ControlMode, env: Env, served: World, outcome: Outcome) {
    if outcome == Settled then
      && Agreed(served) && Served(served, request, env) && JustReset(served, env.now)
      && (served.h.bypass ==> served.h.progress.hoverPending == w.h.progress.hoverPending)
    else
      !served.h.established && SameProgress(w, served)
  }

  // The bound on the requests to the platform that one request makes.
  function Budget(w: World, request: ControlMode): nat {
    w.requests + |w.h.config.modesOut| + 2 + if request.control == HOVER then 1 else 0
  }

  lemma SettledSpec(w: World, request: ControlMode, env: Env, ready: World, pairs: seq<Pair>, i: nat)
    requires (ready, pairs) == Prepare(w, request, env) && TryFrom(ready, pairs, env, 0).settled == Some(i)
    ensures i < |pairs|
    ensures var settled := Settle(TryFrom(ready, pairs, env, 0).world, pairs[i], request.control == HOVER, env.now);
            && OutcomeSpec(w, request, env, settled, Settled) && SameConfiguration(w, settled)
            && settled.requests <= Budget(w, request)
  {
    PrepareSpec(w, request, env);
    TryFromSpec(ready, pairs, env, 0);
    SettleSpec(TryFrom(ready, pairs, env, 0).world, request, env, pairs[i]);
  }

  lemma VainSpec(w: World, request: ControlMode, env: Env, ready: World, pairs: seq<Pair>)
    requires (ready, pairs) == Prepare(w, request, env)
    ensures OutcomeSpec(w, request, env, ready, Refused) && SameConfiguration(w, ready)
    ensures ready.requests + |pairs| + 1 <= Budget(w, request)
    ensures var tried := TryFrom(ready, pairs, env, 0).world;
            && OutcomeSpec(w, request, env, tried, Exhausted) && SameConfiguration(w, tried)
            && tried.requests + 1 <= Budget(w, request)
  {
    PrepareSpec(w, request, env);
    TryFromSpec(ready, pairs, env, 0);
  }

  /**
    One request without its fallback: if it is settled, the two sides agree on the mode it asks for;
    if it is not, nothing is established and nothing else that the callbacks look at has changed. At
    most one request for each pair goes to the platform, one for a hover and one to undo.
  */
  lemma ServeSpec(w: World, request: ControlMode, env: Env)
    ensures var (served, outcome) := Serve(w, request, env);
            && OutcomeSpec(w, request, env, served, outcome)
            && SameConfiguration(w, served)
            && served.requests <= Budget(w, request)
  {
    var (ready, pairs) := Prepare(w, request, env);
    VainSpec(w, request, env, ready, pairs);
    if pairs != [] {
      var tried := TryFrom(ready, pairs, env, 0);
      if tried.settled.Some? {
        SettledSpec(w, request, env, ready, pairs, tried.settled.value);
      } else {
        AskSpec(tried.world, w.h.info.mode, env.restore);
      }
    }
  }

  /**
    The service call, for every request and whatever is answered. It answers true exactly when it
    settles the request itself; when it answers false, nothing is established or the hover fallback is.
    In every case the two sides agree, and the platform gets at most 2 (n + 1) + 3 requests for n output
    modes.
  */
  lemma SetControlModeSpec(w: World, request: ControlMode, env: Env, fallback: Env)
    ensures var (after, answer) := SetControlMode(w, request, env, fallback);
            && Agreed(after)
            && (answer ==> Served(after, request, env))
            && (!answer && after.h.established ==> request.control != HOVER && Served(after, HOVER_REQUEST, fallback))
            && after.requests <= w.requests + 2 * (|w.h.config.modesOut| + 1) + 3
            && SameConfiguration(w, after)
  {
    var (served, outcome) := Serve(w, request, env);
    ServeSpec(w, request, env);
    ServeSpec(served, HOVER_REQUEST, fallback);
  }
}
