/** The flight state machine of the platform, and the language of the events it accepts. */
module PlatformStateMachine {
  import opened Messages

  datatype Transition = Transition(source: Int8, event: Int8, target: Int8)

  // The event that marks "no transition" in the result of a lookup.
  const INVALID: Int8 := -11

  // The state an event leads to, or None when the state refuses it.
  function Next(state: Int8, event: Int8): Option<Int8> {
    if event == EVENT_EMERGENCY then
      if DISARMED <= state <= LANDING then Some(EMERGENCY) else None
    else if state == DISARMED && event == EVENT_ARM then Some(LANDED)
    else if state == LANDED && event == EVENT_DISARM then Some(DISARMED)
    else if state == LANDED && event == EVENT_TAKE_OFF then Some(TAKING_OFF)
    else if state == TAKING_OFF && event == EVENT_TOOK_OFF then Some(FLYING)
    else if state == FLYING && event == EVENT_LAND then Some(LANDING)
    else if state == LANDING && event == EVENT_LANDED then Some(LANDED)
    else None
  }

  // The state after an event, whether it is accepted or not.
  function Process(state: Int8, event: Int8): Int8 {
    match Next(state, event)
    case Some(next) => next
    case None => state
  }

  // A table holds the transitions of Next and no other.
  ghost predicate Describes(table: seq<Transition>) {
    && (forall t :: t in table ==> Next(t.source, t.event) == Some(t.target) && t.event != INVALID)
    && (forall s: Int8, e: Int8 :: Next(s, e).Some? ==> Transition(s, e, Next(s, e).value) in table)
  }

  const TABLE := [
    Transition(DISARMED, EVENT_ARM, LANDED),
    Transition(LANDED, EVENT_DISARM, DISARMED),
    Transition(LANDED, EVENT_TAKE_OFF, TAKING_OFF),
    Transition(TAKING_OFF, EVENT_TOOK_OFF, FLYING),
    Transition(FLYING, EVENT_LAND, LANDING),
    Transition(LANDING, EVENT_LANDED, LANDED),
    Transition(DISARMED, EVENT_EMERGENCY, EMERGENCY),
    Transition(LANDED, EVENT_EMERGENCY, EMERGENCY),
    Transition(TAKING_OFF, EVENT_EMERGENCY, EMERGENCY),
    Transition(FLYING, EVENT_EMERGENCY, EMERGENCY),
    Transition(LANDING, EVENT_EMERGENCY, EMERGENCY)]

  // Where the table holds the transition of a state and an event, if it does.
  function Row(state: Int8, event: Int8): int {
    if event == EVENT_EMERGENCY then state as int + 6
    else if state == DISARMED then 0
    else if state == LANDED then (if event == EVENT_DISARM then 1 else 2)
    else state as int + 1
  }

  lemma TableDescribes()
    ensures Describes(TABLE)
  {
    forall i | 0 <= i < |TABLE|
      ensures Next(TABLE[i].source, TABLE[i].event) == Some(TABLE[i].target)
    {
    }
    forall s: Int8, e: Int8 | Next(s, e).Some?
      ensures Transition(s, e, Next(s, e).value) in TABLE
    {
      assert TABLE[Row(s, e)] == Transition(s, e, Next(s, e).value);
    }
  }

  class StateMachine {
    var transitions: seq<Transition>
    var state: Int8

    ghost predicate Valid()
      reads this
    {
      Describes(transitions)
    }

    constructor ()
      ensures Valid() && state == DISARMED
    {
      state := DISARMED;
      new;
      DefineTransitions();
    }

    method DefineTransitions()
      modifies this`transitions
      ensures transitions == TABLE && Valid()
    {
      transitions := [
        Transition(DISARMED, EVENT_ARM, LANDED),
        Transition(LANDED, EVENT_DISARM, DISARMED),
        Transition(LANDED, EVENT_TAKE_OFF, TAKING_OFF),
        Transition(TAKING_OFF, EVENT_TOOK_OFF, FLYING),
        Transition(FLYING, EVENT_LAND, LANDING),
        Transition(LANDING, EVENT_LANDED, LANDED)];
      transitions := transitions + [
        Transition(DISARMED, EVENT_EMERGENCY, EMERGENCY),
        Transition(LANDED, EVENT_EMERGENCY, EMERGENCY),
        Transition(TAKING_OFF, EVENT_EMERGENCY, EMERGENCY),
        Transition(FLYING, EVENT_EMERGENCY, EMERGENCY),
        Transition(LANDING, EVENT_EMERGENCY, EMERGENCY)];
      TableDescribes();
    }

    method GetTransition(current: Int8, event: Int8) returns (transition: Transition)
      requires Valid()
      ensures Next(current, event).Some? ==> transition == Transition(current, event, Next(current, event).value)
      ensures Next(current, event).None? ==> transition.event == INVALID
      ensures Next(current, event).Some? ==> transition.event != INVALID
    {
      transition := Transition(0, INVALID, 0);
      var i := 0;
      while i < |transitions|
        invariant 0 <= i <= |transitions|
        invariant transition.event == INVALID
        invariant forall j :: 0 <= j < i ==> !(transitions[j].source == current && transitions[j].event == event)
      {
        if transitions[i].source == current && transitions[i].event == event {
          transition := transitions[i];
          assert transition in transitions;
          break;
        }
        i := i + 1;
      }
    }

    method ProcessEvent(event: Int8) returns (accepted: bool)
      requires Valid()
      modifies this`state
      ensures accepted <==> Next(old(state), event).Some?
      ensures state == Process(old(state), event)
    {
      var transition := GetTransition(state, event);
      if transition.event == INVALID {
        return false;
      }
      state := transition.target;
      return true;
    }

    method SetState(s: Int8)
      modifies this`state
      ensures state == s
    {
      state := s;
    }
  }

  // The state after a word that is accepted event by event, or None when some event is refused.
  function RunFrom(state: Int8, word: seq<Int8>): Option<Int8> {
    if word == [] then Some(state)
    else
      match RunFrom(state, word[..|word| - 1])
      case Some(t) => Next(t, word[|word| - 1])
      case None => None
  }

  // The state and the accepted events of a sequence in which any event may be refused.
  function Feed(state: Int8, events: seq<Int8>): (Int8, seq<Int8>) {
    if events == [] then (state, [])
    else
      var (t, accepted) := Feed(state, events[..|events| - 1]);
      var event := events[|events| - 1];
      (Process(t, event), if Next(t, event).Some? then accepted + [event] else accepted)
  }

  const FLIGHT := [EVENT_TAKE_OFF, EVENT_TOOK_OFF, EVENT_LAND, EVENT_LANDED]

  function Flights(n: nat): seq<Int8> {
    if n == 0 then [] else Flights(n - 1) + FLIGHT
  }

  // Armed periods, each with its number of flights.
  function Mission(periods: seq<nat>): seq<Int8> {
    if periods == [] then []
    else Mission(periods[..|periods| - 1]) + [EVENT_ARM] + Flights(periods[|periods| - 1]) + [EVENT_DISARM]
  }

  ghost predicate MissionPrefix(word: seq<Int8>) {
    exists periods: seq<nat> :: word <= Mission(periods)
  }

  // A prefix of a mission, possibly cut short by an emergency.
  ghost predicate InLanguage(word: seq<Int8>) {
    || MissionPrefix(word)
    || (word != [] && word[|word| - 1] == EVENT_EMERGENCY && MissionPrefix(word[..|word| - 1]))
  }

  lemma {:induction false} RunConcat(state: Int8, u: seq<Int8>, v: seq<Int8>)
    ensures RunFrom(state, u + v)
            == match RunFrom(state, u) { case Some(t) => RunFrom(t, v) case None => None }
    decreases |v|
  {
    if v == [] {
      assert u + v == u;
    } else {
      var n := |v| - 1;
      assert (u + v)[..|u + v| - 1] == u + v[..n];
      RunConcat(state, u, v[..n]);
    }
  }

  lemma RunFlight()
    ensures RunFrom(LANDED, FLIGHT) == Some(LANDED)
  {
    assert FLIGHT[..3] == [EVENT_TAKE_OFF, EVENT_TOOK_OFF, EVENT_LAND];
    assert FLIGHT[..3][..2] == [EVENT_TAKE_OFF, EVENT_TOOK_OFF];
    assert [EVENT_TAKE_OFF, EVENT_TOOK_OFF][..1] == [EVENT_TAKE_OFF];
    assert RunFrom(LANDED, [EVENT_TAKE_OFF]) == Some(TAKING_OFF);
    assert RunFrom(LANDED, FLIGHT[..3]) == Some(LANDING);
  }

  lemma {:induction false} RunFlights(n: nat)
    ensures RunFrom(LANDED, Flights(n)) == Some(LANDED)
  {
    if n > 0 {
      RunFlights(n - 1);
      RunFlight();
      RunConcat(LANDED, Flights(n - 1), FLIGHT);
    }
  }

  lemma {:induction false} RunMission(periods: seq<nat>)
    ensures RunFrom(DISARMED, Mission(periods)) == Some(DISARMED)
  {
    if periods != [] {
      var most, n := periods[..|periods| - 1], periods[|periods| - 1];
      RunMission(most);
      RunFlights(n);
      var w := Mission(most) + [EVENT_ARM];
      RunConcat(DISARMED, Mission(most), [EVENT_ARM]);
      assert [EVENT_ARM][..0] == [];
      RunConcat(DISARMED, w, Flights(n));
      RunConcat(DISARMED, w + Flights(n), [EVENT_DISARM]);
      assert [EVENT_DISARM][..0] == [];
    }
  }

  // What an accepted word in state `state` still lacks to be a whole number of armed periods.
  ghost predicate EndsIn(state: Int8, word: seq<Int8>, periods: seq<nat>, n: nat) {
    var flying := Mission(periods) + [EVENT_ARM] + Flights(n);
    || (state == DISARMED && word == Mission(periods))
    || (state == LANDED && word == flying)
    || (state == TAKING_OFF && word == flying + FLIGHT[..1])
    || (state == FLYING && word == flying + FLIGHT[..2])
    || (state == LANDING && word == flying + FLIGHT[..3])
  }

  lemma ParseStep(state: Int8, word: seq<Int8>, event: Int8, periods: seq<nat>, n: nat)
    returns (periods': seq<nat>, n': nat)
    requires EndsIn(state, word, periods, n)
    requires Next(state, event).Some? && Next(state, event).value != EMERGENCY
    ensures EndsIn(Next(state, event).value, word + [event], periods', n')
  {
    periods', n' := periods, n;
    var flying := Mission(periods) + [EVENT_ARM] + Flights(n);
    if state == DISARMED {
      n' := 0;
      assert word + [event] == Mission(periods) + [EVENT_ARM] + Flights(0);
    } else if state == LANDED && event == EVENT_DISARM {
      periods' := periods + [n];
      assert periods'[..|periods|] == periods;
    } else if state == LANDED {
      assert word + [event] == flying + FLIGHT[..1];
    } else if state == TAKING_OFF {
      assert word + [event] == flying + FLIGHT[..2];
    } else if state == FLYING {
      assert word + [event] == flying + FLIGHT[..3];
    } else {
      n' := n + 1;
      assert word + [event] == flying + FLIGHT == Mission(periods) + [EVENT_ARM] + Flights(n + 1);
    }
  }

  // The armed periods of an accepted word that holds no emergency.
  lemma {:induction false} Parse(word: seq<Int8>) returns (periods: seq<nat>, n: nat)
    requires RunFrom(DISARMED, word).Some? && RunFrom(DISARMED, word) != Some(EMERGENCY)
    ensures EndsIn(RunFrom(DISARMED, word).value, word, periods, n)
  {
    if word == [] {
      periods, n := [], 0;
    } else {
      var init, event := word[..|word| - 1], word[|word| - 1];
      assert word == init + [event];
      periods, n := Parse(init);
      periods, n := ParseStep(RunFrom(DISARMED, init).value, init, event, periods, n);
    }
  }

  lemma ParsedIsMissionPrefix(state: Int8, word: seq<Int8>, periods: seq<nat>, n: nat)
    requires EndsIn(state, word, periods, n)
    ensures MissionPrefix(word)
  {
    var longer := periods + [n + 1];
    assert longer[..|periods|] == periods;
    var flying := Mission(periods) + [EVENT_ARM] + Flights(n);
    assert Mission(longer) == flying + (FLIGHT + [EVENT_DISARM]);
    assert word <= Mission(if state == DISARMED then periods else longer);
  }

  lemma PrefixIsAccepted(word: seq<Int8>, whole: seq<Int8>)
    requires word <= whole && RunFrom(DISARMED, whole).Some?
    ensures RunFrom(DISARMED, word).Some?
  {
  }

  lemma {:induction false} MissionHasNoEmergency(word: seq<Int8>, periods: seq<nat>)
    requires word <= Mission(periods)
    ensures RunFrom(DISARMED, word).Some? && RunFrom(DISARMED, word).value != EMERGENCY
  {
    RunMission(periods);
    PrefixIsAccepted(word, Mission(periods));
    EmergencyIsFinal(RunFrom(DISARMED, word).value, Mission(periods)[|word|..]);
    RunConcat(DISARMED, word, Mission(periods)[|word|..]);
    assert word + Mission(periods)[|word|..] == Mission(periods);
  }

  // From EMERGENCY nothing is accepted.
  lemma {:induction false} EmergencyIsFinal(state: Int8, word: seq<Int8>)
    ensures state == EMERGENCY && word != [] ==> RunFrom(state, word) == None
  {
    if |word| > 1 {
      EmergencyIsFinal(state, word[..|word| - 1]);
    } else if |word| == 1 {
      assert word[..0] == [];
    }
  }

  lemma {:induction false} ReachedState(word: seq<Int8>)
    requires RunFrom(DISARMED, word).Some?
    ensures EMERGENCY <= RunFrom(DISARMED, word).value <= LANDING
    ensures RunFrom(DISARMED, word) == Some(EMERGENCY) ==>
      word != [] && word[|word| - 1] == EVENT_EMERGENCY
      && RunFrom(DISARMED, word[..|word| - 1]).Some? && RunFrom(DISARMED, word[..|word| - 1]) != Some(EMERGENCY)
  {
  }

  /** A word is accepted from DISARMED, event by event, exactly when it is in the language. */
  lemma AcceptedIffInLanguage(word: seq<Int8>)
    ensures RunFrom(DISARMED, word).Some? <==> InLanguage(word)
  {
    if RunFrom(DISARMED, word).Some? {
      ReachedState(word);
      var cut := if RunFrom(DISARMED, word) == Some(EMERGENCY) then word[..|word| - 1] else word;
      var periods, n := Parse(cut);
      ParsedIsMissionPrefix(RunFrom(DISARMED, cut).value, cut, periods, n);
    }
    if InLanguage(word) {
      var cut := if MissionPrefix(word) then word else word[..|word| - 1];
      var periods: seq<nat> :| cut <= Mission(periods);
      MissionHasNoEmergency(cut, periods);
      ReachedState(cut);
    }
  }

  // Whatever is fed, the accepted events are a word that is accepted and ends in the same state.
  lemma {:induction false} FeedRuns(state: Int8, events: seq<Int8>)
    ensures RunFrom(state, Feed(state, events).1) == Some(Feed(state, events).0)
  {
    if events != [] {
      var most := events[..|events| - 1];
      FeedRuns(state, most);
      var (t, accepted) := Feed(state, most);
      assert (accepted + [events[|events| - 1]])[..|accepted|] == accepted;
    }
  }

  /**
    The accepted events of any sequence are in the language, and every word of the language is the
    accepted part of some sequence: of itself.
  */
  lemma {:induction false} AcceptedLanguage(events: seq<Int8>)
    ensures InLanguage(Feed(DISARMED, events).1)
    ensures InLanguage(events) ==> Feed(DISARMED, events).1 == events
  {
    FeedRuns(DISARMED, events);
    AcceptedIffInLanguage(Feed(DISARMED, events).1);
    if InLanguage(events) {
      AcceptedIffInLanguage(events);
      RunIsFeed(DISARMED, events);
    }
  }

  lemma {:induction false} RunIsFeed(state: Int8, word: seq<Int8>)
    requires RunFrom(state, word).Some?
    ensures Feed(state, word) == (RunFrom(state, word).value, word)
  {
    if word != [] {
      RunIsFeed(state, word[..|word| - 1]);
      assert word[..|word| - 1] + [word[|word| - 1]] == word;
    }
  }

  function Count(event: Int8, word: seq<Int8>): nat {
    if word == [] then 0
    else Count(event, word[..|word| - 1]) + if word[|word| - 1] == event then 1 else 0
  }

  /**
    Until an emergency, accepted take-offs lead accepted landings by one exactly in FLYING, and
    accepted armings lead accepted disarmings by one exactly when the platform is not DISARMED.
  */
  lemma {:induction false} Balance(events: seq<Int8>)
    ensures var (state, word) := Feed(DISARMED, events);
            EMERGENCY <= state <= LANDING
            && (state != EMERGENCY ==>
              && Count(EVENT_TOOK_OFF, word) - Count(EVENT_LAND, word) == (if state == FLYING then 1 else 0)
              && Count(EVENT_ARM, word) - Count(EVENT_DISARM, word) == (if state == DISARMED then 0 else 1))
  {
    if events != [] {
      var most, event := events[..|events| - 1], events[|events| - 1];
      Balance(most);
      var (t, accepted) := Feed(DISARMED, most);
      assert (accepted + [event])[..|accepted|] == accepted;
    }
  }

  /** From EMERGENCY no event leads anywhere. */
  lemma {:induction false} EmergencyAbsorbs(events: seq<Int8>)
    ensures Feed(EMERGENCY, events) == (EMERGENCY, [])
  {
    if events != [] {
      EmergencyAbsorbs(events[..|events| - 1]);
    }
  }
}
