/** Exactly when the service that changes the control mode establishes one, and which. */
module ServiceLaws {
  import opened Messages
  import opened ControlModes
  import opened ModeNegotiation
  import opened HandlerModel
  import opened Settlement
  import P = AerialPlatform

  // Some pair works when its turn comes.
  ghost predicate SomeWorks(w: World, pairs: seq<Pair>, env: Env) {
    exists i :: 0 <= i < |pairs| && WorksAt(w, pairs, env, i)
  }

  ghost predicate WorksFirst(w: World, pairs: seq<Pair>, env: Env, i: int) {
    0 <= i < |pairs| && WorksAt(w, pairs, env, i) && forall j :: 0 <= j < i ==> !WorksAt(w, pairs, env, j)
  }

  // The list that a request is served from, if there is one.
  predicate HasList(w: World, env: Env) {
    w.h.platformModes != [] || (env.listed && w.p.available != [])
  }

  function ListOf(w: World): seq<bv8> {
    if w.h.platformModes != [] then w.h.platformModes else w.p.available
  }

  // The controller is bypassed: the platform takes a hover, or lists the mode that is asked for.
  ghost predicate Bypasses(w: World, request: ControlMode, env: Env) {
    && w.h.config.useBypass
    && (if request.control == HOVER then
          && (exists c :: c in ListOf(w) && Level(c) == HOVER_MODE_MASK)
          && PlatformTakes(w.p, HOVER_REQUEST, env.hover)
        else
          && Level(Encode(request)) != HOVER_MODE_MASK && Level(Encode(request)) != UNSET_MODE_MASK
          && exists c :: c in ListOf(w) && Key(c) == Key(Encode(request)))
  }

  // The byte that is negotiated with the plugin.
  function InputOf(request: ControlMode, env: Env): bv8 {
    Encode(if request.control == HOVER then env.hoverMode else request)
  }

  lemma BypassModeSpec(input: bv8, modes: seq<bv8>)
    ensures BypassMode(input, modes) != 0 <==> !Skipped(input) && exists c :: c in modes && Key(c) == Key(input)
    ensures BypassMode(input, modes) != 0 ==>
              BypassMode(input, modes) in modes && Key(BypassMode(input, modes)) == Key(input)
  {
    LastMatchSpec(input, modes, MATCH_MODE_AND_YAW);
    SkippedHasNoLevel(input);
    forall c | c in modes ensures CompareModes(input, c, MATCH_MODE_AND_YAW) <==> Key(c) == Key(input) {
    }
    if input in modes {
      assert Key(input) == Key(input);
    }
  }

  lemma SkippedHasNoLevel(input: bv8)
    ensures !Skipped(input) ==> input & MATCH_MODE_AND_YAW != 0
  {
  }

  // The output of a bypass.
  function BypassOutput(w: World, request: ControlMode): bv8 {
    if request.control == HOVER then HOVER_MODE_MASK else LastMatch(Encode(request), ListOf(w), MATCH_MODE_AND_YAW)
  }

  lemma BypassExactly(w: World, request: ControlMode, env: Env)
    requires w.h.platformModes != []
    ensures var (decided, output) := TryBypass(w, request, env);
            && decided.h == w.h.(bypass := Bypasses(w, request, env))
            && (Bypasses(w, request, env) ==> output == BypassOutput(w, request))
  {
    AskSpec(w, HOVER_REQUEST, env.hover);
    BypassModeSpec(Encode(request), w.h.platformModes);
  }

  /**
    Whether a request bypasses the controller: it does by the list, the configuration and the platform's answer
    to a hover, and without a list nothing is decided or tried.
  */
  lemma PreparedExactly(w: World, request: ControlMode, env: Env)
    ensures var (ready, pairs) := Prepare(w, request, env);
            if !HasList(w, env) then pairs == [] && ready.h == w.h.(established := false)
            else
              && ready.h == w.h.(established := false, platformModes := ListOf(w), bypass := Bypasses(w, request, env))
              && pairs == (if Bypasses(w, request, env) then [(UNSET_MODE_MASK, BypassOutput(w, request))]
                           else if request.control == HOVER && env.hoverMode.control == UNSET then []
                           else ModePairs(InputOf(request, env), w.h.config.preferred, w.h.config.modesIn,
                                          w.h.config.modesOut, ListOf(w)))
  {
    var listed := FetchModes(w.(h := w.h.(established := false)), env);
    if listed.Some? {
      BypassExactly(listed.value, request, env);
    }
  }

  /**
    The pairs that a request tries when it does not bypass the controller: the plugin can serve a hover that is
    asked for, the input is the plugin's, and the outputs are those of the platform that it is not below.
  */
  lemma PairsExactly(w: World, request: ControlMode, env: Env, pair: Pair)
    requires HasList(w, env) && !Bypasses(w, request, env)
    ensures pair in Prepare(w, request, env).1 <==>
              && (request.control == HOVER ==> env.hoverMode.control != UNSET)
              && ResolvedInput(InputOf(request, env), w.h.config.modesIn) == Some(pair.0)
              && Level(pair.0) >= Level(pair.1) && pair.1 != 0
              && (pair.1 == PreferredOutput(w.h.config.preferred, ListOf(w))
                  || FoundBy(w.h.config.modesOut, ListOf(w), pair.1))
  {
    PreparedExactly(w, request, env);
    PairsSpec(InputOf(request, env), w.h.config.preferred, w.h.config.modesIn, w.h.config.modesOut, ListOf(w), pair);
  }

  // A request to a world with the same lists prepares the same.
  lemma PreparedByLists(v: World, w: World, request: ControlMode, env: Env)
    requires v.h.config == w.h.config && v.p.available == w.p.available
    requires v.h.platformModes == w.h.platformModes && w.h.platformModes != []
    ensures Prepare(v, request, env).1 == Prepare(w, request, env).1
    ensures Prepare(v, request, env).0.h.bypass == Prepare(w, request, env).0.h.bypass
  {
    PreparedExactly(v, request, env);
    PreparedExactly(w, request, env);
    ChangeByList(v.p, w.p, HOVER_REQUEST, env.hover.driver);
  }

  lemma SomeWorksByLists(v: World, w: World, pairs: seq<Pair>, env: Env)
    requires v.p.available == w.p.available && v.h.bypass == w.h.bypass
    ensures SomeWorks(v, pairs, env) <==> SomeWorks(w, pairs, env)
    ensures forall i :: WorksFirst(v, pairs, env, i) <==> WorksFirst(w, pairs, env, i)
  {
    forall i | 0 <= i < |pairs| ensures WorksAt(v, pairs, env, i) == WorksAt(w, pairs, env, i) {
      ChangeByList(v.p, w.p, Decode(pairs[i].1), env.platform(i).driver);
    }
  }

  // The modes, the bypass and the frames that pair i leaves established.
  ghost predicate HasEstablished(v: World, ready: World, pairs: seq<Pair>, env: Env, i: int)
    requires 0 <= i < |pairs|
  {
    && v.h.established && v.h.bypass == ready.h.bypass && v.h.progress.modeOut == Decode(pairs[i].1)
    && (if v.h.bypass then v.h.progress.modeIn == Decode(pairs[i].1)
        else
          && v.h.progress.modeIn == Decode(pairs[i].0)
          && v.h.progress.poseFrame == env.plugin(i).poseFrame && v.h.progress.twistFrame == env.plugin(i).twistFrame)
    && v.h.progress.lastTime == env.now
  }

  // The frames after attempts of which pair i was settled are those that the plugin answered to it.
  lemma {:induction false} SettledFrames(w: World, pairs: seq<Pair>, env: Env, i: nat)
    requires i <= |pairs|
    ensures var r := TryFrom(w, pairs, env, i);
            r.settled.Some? && !w.h.bypass ==>
              && r.world.g.poseFrame == env.plugin(r.settled.value).poseFrame
              && r.world.g.twistFrame == env.plugin(r.settled.value).twistFrame
    decreases |pairs| - i
  {
    if i < |pairs| {
      var attempt := Try(w, pairs[i], env.platform(i), env.plugin(i));
      AskSpec(w, Decode(pairs[i].1), env.platform(i));
      if !attempt.settled {
        SettledFrames(attempt.world, pairs, env, i + 1);
      }
    }
  }

  lemma TriedExactly(w: World, pairs: seq<Pair>, env: Env)
    ensures var settled := TryFrom(w, pairs, env, 0).settled;
            && (settled.Some? <==> SomeWorks(w, pairs, env))
            && (forall i :: WorksFirst(w, pairs, env, i) ==> settled == Some(i))
            && (settled.Some? ==> WorksFirst(w, pairs, env, settled.value))
  {
    SettlesTheFirst(w, pairs, env, 0);
  }

  lemma SettledEstablishes(ready: World, pairs: seq<Pair>, env: Env, hover: bool, i: nat)
    requires TryFrom(ready, pairs, env, 0).settled == Some(i)
    ensures i < |pairs|
    ensures HasEstablished(Settle(TryFrom(ready, pairs, env, 0).world, pairs[i], hover, env.now), ready, pairs, env, i)
  {
    SettledFrames(ready, pairs, env, 0);
    TryFromSpec(ready, pairs, env, 0);
  }

  // One request without its fallback: what it settles.
  lemma ServedSettles(w: World, request: ControlMode, env: Env)
    ensures var (ready, pairs) := Prepare(w, request, env);
            var (served, outcome) := Serve(w, request, env);
            && (outcome == Settled <==> SomeWorks(ready, pairs, env))
            && (outcome == Refused <==> pairs == [])
            && (outcome == Settled ==>
                  exists i :: WorksFirst(ready, pairs, env, i) && HasEstablished(served, ready, pairs, env, i))
  {
    var (ready, pairs) := Prepare(w, request, env);
    TriedExactly(ready, pairs, env);
    var settled := TryFrom(ready, pairs, env, 0).settled;
    if settled.Some? {
      SettledEstablishes(ready, pairs, env, request.control == HOVER, settled.value);
    }
  }

  // What a request that settles nothing leaves for the next.
  lemma VainLeaves(w: World, request: ControlMode, env: Env)
    requires Serve(w, request, env).1 == Exhausted
    ensures var ready := Prepare(w, request, env).0;
            var served := Serve(w, request, env).0;
            && !served.h.established && served.h.config == ready.h.config && served.h.bypass == ready.h.bypass
            && served.h.platformModes == ready.h.platformModes && served.p.available == ready.p.available
  {
    var (ready, pairs) := Prepare(w, request, env);
    TryFromSpec(ready, pairs, env, 0);
    PrepareSpec(w, request, env);
    AskSpec(TryFrom(ready, pairs, env, 0).world, w.h.info.mode, env.restore);
  }

  // The request is tried in vain, and it is not one for a hover.
  ghost predicate FallsBack(ready: World, pairs: seq<Pair>, request: ControlMode, env: Env) {
    pairs != [] && !SomeWorks(ready, pairs, env) && request.control != HOVER
  }

  // The modes of the first pair that works are established, as the request asks.
  ghost predicate Establishes(v: World, ready: World, pairs: seq<Pair>, request: ControlMode, env: Env) {
    && Served(v, request, env)
    && exists i :: WorksFirst(ready, pairs, env, i) && HasEstablished(v, ready, pairs, env, i)
  }

  /**
    Exactly when a mode is established after the service call, and which. The request itself is, exactly if
    some pair of it works, and that is when the answer is true. A hover is, exactly if there were pairs, none
    of them worked, the request was not for a hover, and some pair of the hover works: a request without pairs
    does not fall back. In both cases it is the first pair that works. Otherwise nothing is established.
  */
  lemma EstablishedExactly(w: World, request: ControlMode, env: Env, fallback: Env)
    ensures var (ready, pairs) := Prepare(w, request, env);
            var (hovering, hovers) := Prepare(ready, HOVER_REQUEST, fallback);
            var (after, answer) := SetControlMode(w, request, env, fallback);
            var falls := FallsBack(ready, pairs, request, env);
            && (answer <==> SomeWorks(ready, pairs, env))
            && (after.h.established <==>
                  SomeWorks(ready, pairs, env) || (falls && SomeWorks(hovering, hovers, fallback)))
            && (answer ==> Establishes(after, ready, pairs, request, env))
            && (falls && after.h.established ==> Establishes(after, hovering, hovers, HOVER_REQUEST, fallback))
  {
    var (ready, pairs) := Prepare(w, request, env);
    var (served, outcome) := Serve(w, request, env);
    ServedSettles(w, request, env);
    ServeSpec(w, request, env);
    if outcome == Exhausted && request.control != HOVER {
      FallbackExactly(w, request, env, fallback);
    }
  }

  // The plugin's modes after one request without its fallback.
  lemma ServedPluginModes(w: World, request: ControlMode, env: Env)
    ensures var (served, outcome) := Serve(w, request, env);
            var h := served.h;
            && (outcome == Settled <==> h.established)
            && (if h.established && !h.bypass then
                  served.g.modeIn == h.progress.modeIn && served.g.modeOut == h.progress.modeOut
                else served.g.modeIn == w.g.modeIn && served.g.modeOut == w.g.modeOut)
  {
    var (ready, pairs) := Prepare(w, request, env);
    ServeSpec(w, request, env);
    PrepareSpec(w, request, env);
    TryFromSpec(ready, pairs, env, 0);
    if pairs != [] && TryFrom(ready, pairs, env, 0).settled.None? {
      AskSpec(TryFrom(ready, pairs, env, 0).world, w.h.info.mode, env.restore);
    }
  }

  /**
    A plugin's modes are those of its last settlement: a service call changes them exactly when it settles a
    pair with the plugin, and then to that pair, whatever pairs the plugin refused on the way.
  */
  lemma PluginModesExactly(w: World, request: ControlMode, env: Env, fallback: Env)
    ensures var after := SetControlMode(w, request, env, fallback).0;
            if after.h.established && !after.h.bypass then
              after.g.modeIn == after.h.progress.modeIn && after.g.modeOut == after.h.progress.modeOut
            else after.g.modeIn == w.g.modeIn && after.g.modeOut == w.g.modeOut
  {
    var (served, outcome) := Serve(w, request, env);
    ServedPluginModes(w, request, env);
    if outcome == Exhausted && request.control != HOVER {
      ServedPluginModes(served, HOVER_REQUEST, fallback);
    }
  }

  lemma FallbackExactly(w: World, request: ControlMode, env: Env, fallback: Env)
    requires Serve(w, request, env).1 == Exhausted
    ensures var (hovering, hovers) := Prepare(Prepare(w, request, env).0, HOVER_REQUEST, fallback);
            var (after, outcome) := Serve(Serve(w, request, env).0, HOVER_REQUEST, fallback);
            && (after.h.established <==> SomeWorks(hovering, hovers, fallback))
            && (after.h.established ==> Establishes(after, hovering, hovers, HOVER_REQUEST, fallback))
  {
    var ready, served := Prepare(w, request, env).0, Serve(w, request, env).0;
    PreparedExactly(w, request, env);
    VainLeaves(w, request, env);
    PreparedByLists(served, ready, HOVER_REQUEST, fallback);
    ServedSettles(served, HOVER_REQUEST, fallback);
    ServeSpec(served, HOVER_REQUEST, fallback);
    PrepareSpec(served, HOVER_REQUEST, fallback);
    PrepareSpec(ready, HOVER_REQUEST, fallback);
    var hovering, hovers := Prepare(ready, HOVER_REQUEST, fallback).0, Prepare(ready, HOVER_REQUEST, fallback).1;
    SomeWorksByLists(Prepare(served, HOVER_REQUEST, fallback).0, hovering, hovers, fallback);
  }
}
