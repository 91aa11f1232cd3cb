/**
  The behaviour tree node that runs a remote action: a client of an action server that acknowledges,
  rejects and completes goals whenever it likes, and may answer about any goal it was ever sent.
*/
module BtActionNode {
  import opened Messages

  datatype Status = IDLE | RUNNING | SUCCESS | FAILURE

  datatype Code = Unknown | Succeeded | Aborted | Canceled

  datatype Result = Result(goal: nat, code: Code)

  // Goals are numbered as they are sent; `sent` is the number of the last one.
  datatype Node = Node(
    running: bool,
    goalUpdated: bool, resultAvailable: bool,
    future: Option<nat>, handle: Option<nat>,
    result: Result,
    sent: nat, timeSent: int)

  // Milliseconds; `loop` is how long one wait for an acknowledgement may last.
  datatype Timing = Timing(timeout: int, loop: int)

  // How a wait for the acknowledgement of a goal ends.
  datatype Ack = Accepted | Rejected | TimedOut | Interrupted

  // The server, the clock (nanoseconds) and the hooks during one tick. Results of a wait and of a poll may
  // belong to any goal; `updatedOn...` is what the hook leaves in the flag that it may change.
  datatype TickEnv = TickEnv(
    updatedOnTick: bool, sentAt: int,
    readAt: int, ack: Ack, waited: seq<Result>,
    updatedOnWait: bool, active: bool, resentAt: int,
    rereadAt: int, reack: Ack, rewaited: seq<Result>,
    polled: seq<Result>,
    onSuccess: Status, onAborted: Status, onCanceled: Status)

  datatype HaltEnv = HaltEnv(polled: seq<Result>, active: bool, canceling: seq<Result>)

  // What a tick returns, and the result it was computed from, if it was; an unknown code is an exception.
  datatype Returned = Returned(status: Status, source: Option<Result>) | Thrown

  // The tree resets a node that has returned anything but RUNNING, so it is running or idle.
  function Ended(n: Node, returned: Status): Node {
    n.(running := returned == RUNNING)
  }

  function Millis(nanoseconds: int): int {
    if nanoseconds >= 0 then nanoseconds / 1_000_000 else -(-nanoseconds / 1_000_000)
  }

  function Send(n: Node, now: int): Node {
    n.(resultAvailable := false, sent := n.sent + 1, future := Some(n.sent + 1), timeSent := now)
  }

  // Looking at the goal handle is safe.
  predicate HasHandle(n: Node) {
    n.handle.Some?
  }

  // A result is dropped while a goal is unacknowledged, and when it is of another goal.
  function Deliver(n: Node, r: Result): Node
    requires n.future.Some? || HasHandle(n)
  {
    if n.future.None? && n.handle.value == r.goal then n.(resultAvailable := true, result := r) else n
  }

  function DeliverAll(n: Node, results: seq<Result>): (m: Node)
    requires n.future.Some? || HasHandle(n)
    ensures m == n.(resultAvailable := m.resultAvailable, result := m.result)
    ensures n.future.Some? ==> m == n
    ensures m.resultAvailable ==> n.resultAvailable || (n.future.None? && m.result.goal == n.handle.value)
    ensures m.result == n.result || (n.future.None? && m.result.goal == n.handle.value && m.resultAvailable)
    decreases |results|
  {
    if results == [] then n
    else Deliver(DeliverAll(n, results[..|results| - 1]), results[|results| - 1])
  }

  // The end of a wait: acknowledged, still to wait for, or failed.
  datatype Wait = Acknowledged | Pending(elapsed: int) | Failed

  function Slice(elapsed: int, t: Timing): int {
    if t.timeout - elapsed > t.loop then t.loop else t.timeout - elapsed
  }

  function Await(n: Node, elapsed: int, t: Timing, ack: Ack): (Node, Wait)
    requires n.future.Some?
  {
    if t.timeout - elapsed <= 0 then (n.(future := None), Pending(elapsed))
    else
      match ack
      case Interrupted => (n.(future := None), Failed)
      case TimedOut => (n, Pending(elapsed + Slice(elapsed, t)))
      case Rejected => (n.(future := None, handle := None), Failed)
      case Accepted => (n.(future := None, handle := n.future), Acknowledged)
  }

  // What the tick returns when the acknowledgement has not come; None when it has.
  function AwaitOrReturn(n: Node, now: int, t: Timing, ack: Ack): (r: (Node, Option<Status>))
    requires n.future.Some?
    ensures r.1.None? ==> r.0.future.None? && r.0.handle == n.future
  {
    match Await(n, Millis(now - n.timeSent), t, ack)
    case (m, Acknowledged) => (m, None)
    case (m, Failed) => (m, Some(FAILURE))
    case (m, Pending(elapsed)) =>
      if elapsed < t.timeout then (m, Some(RUNNING)) else (m.(future := None), Some(FAILURE))
  }

  function Begin(n: Node, env: TickEnv): Node {
    if n.running then n
    else Send(n.(running := true, goalUpdated := env.updatedOnTick), env.sentAt)
  }

  // Waits for the acknowledgement of the last goal, if it has not come.
  function FirstWait(n: Node, t: Timing, env: TickEnv): (Node, Option<Status>) {
    if n.future.Some? then AwaitOrReturn(n, env.readAt, t, env.ack) else (n, None)
  }

  // Sends an updated goal to a server that is working on the last one.
  function Resend(n: Node, t: Timing, env: TickEnv): (r: (Node, Option<Status>))
    requires HasHandle(n)
    ensures r.1.None? ==> HasHandle(r.0)
  {
    var m := n.(goalUpdated := env.updatedOnWait);
    if m.goalUpdated && env.active
    then AwaitOrReturn(Send(m.(goalUpdated := false), env.resentAt), env.rereadAt, t, env.reack)
    else (m, None)
  }

  // What the hook for a result returns; there is none for an unknown code.
  function Hook(env: TickEnv, code: Code): Option<Status> {
    match code
    case Succeeded => Some(env.onSuccess)
    case Aborted => Some(env.onAborted)
    case Canceled => Some(env.onCanceled)
    case Unknown => None
  }

  function Finish(n: Node, env: TickEnv): (Node, Returned) {
    match Hook(env, n.result.code)
    case None => (n, Thrown)
    case Some(status) => (Ended(n.(handle := None), status), Returned(status, Some(n.result)))
  }

  // A node that a tick may be called on: a running one never looks for a handle in vain.
  predicate Ready(n: Node) {
    n.running ==> n.future.Some? || HasHandle(n) || n.resultAvailable
  }

  function Tick(n: Node, t: Timing, env: TickEnv): (Node, Returned)
    requires Ready(n)
  {
    var (known, unacknowledged) := FirstWait(Begin(n, env), t, env);
    if unacknowledged.Some? then (Ended(known, unacknowledged.value), Returned(unacknowledged.value, None))
    else if known.resultAvailable then Finish(known, env)
    else
      var (current, waiting) := Resend(known, t, env);
      if waiting.Some? then (Ended(current, waiting.value), Returned(waiting.value, None))
      else
        var polled := DeliverAll(current, env.polled);
        if polled.resultAvailable then Finish(polled, env) else (polled, Returned(RUNNING, None))
  }

  // A halt of a running node lets results in, and asks the server to cancel the goal of the handle, if it works
  // on it. The second component is the goal that is to be canceled.
  function Halt(n: Node, env: HaltEnv): (Node, Option<nat>) {
    if n.running && HasHandle(n) then
      var polled := DeliverAll(n, env.polled);
      if env.active then (DeliverAll(polled, env.canceling).(running := false), n.handle)
      else (polled.(running := false), None)
    else (n.(running := false), None)
  }

  datatype Event = Ticked(tick: TickEnv) | Halted(halt: HaltEnv)

  // The last goal that was sent is the only one a running node can complete with.
  ghost predicate Inv(n: Node) {
    && Ready(n)
    && (n.future.Some? ==> n.future.value == n.sent)
    && (n.running && n.future.None? && n.handle.Some? ==> n.handle.value == n.sent)
    && (n.running && n.resultAvailable ==> n.future.None? && n.result.goal == n.sent)
    && (n.handle.Some? ==> n.handle.value <= n.sent && (n.future.Some? ==> n.handle.value < n.sent))
  }

  // A tick that completes does so with a result of the last goal that was sent.
  ghost predicate CompletesWithTheLast(m: Node, returned: Returned) {
    returned.Returned? && returned.source.Some? ==>
      returned.source.value.goal == m.sent && returned.source.value.code != Unknown
  }

  // A wait that ends the tick leaves a good node; one that does not leaves the last goal acknowledged.
  ghost predicate WaitKeepsInv(n: Node, r: (Node, Option<Status>)) {
    match r.1
    case Some(status) => Inv(Ended(r.0, status)) && r.0.sent >= n.sent
    case None => Inv(r.0) && r.0.running && r.0.future.None? && r.0.sent >= n.sent
  }

  lemma FirstWaitKeepsInv(n: Node, t: Timing, env: TickEnv)
    requires Inv(n) && n.running
    ensures WaitKeepsInv(n, FirstWait(n, t, env))
  {
  }

  lemma ResendKeepsInv(n: Node, t: Timing, env: TickEnv)
    requires Inv(n) && n.running && n.future.None? && !n.resultAvailable
    ensures WaitKeepsInv(n, Resend(n, t, env))
    ensures Resend(n, t, env).1.None? ==> !Resend(n, t, env).0.resultAvailable
  {
  }

  // A result that a running node has is made into what the tick returns.
  lemma FinishKeepsInv(n: Node, env: TickEnv)
    requires Inv(n) && n.running && n.resultAvailable
    ensures var (m, returned) := Finish(n, env);
            && Inv(m) && CompletesWithTheLast(m, returned) && m.sent == n.sent
            && (returned.Returned? ==>
                  returned.source == Some(n.result) && Hook(env, n.result.code) == Some(returned.status))
  {
  }

  lemma PollKeepsInv(n: Node, results: seq<Result>)
    requires Inv(n) && n.running && n.future.None? && HasHandle(n)
    ensures Inv(DeliverAll(n, results)) && DeliverAll(n, results).sent == n.sent && DeliverAll(n, results).running
  {
  }

  lemma TickKeepsInv(n: Node, t: Timing, env: TickEnv)
    requires Inv(n)
    ensures var (m, returned) := Tick(n, t, env);
            && Inv(m) && CompletesWithTheLast(m, returned)
            && m.sent >= n.sent && (!n.running ==> m.sent > n.sent)
            && (returned.Returned? && returned.source.Some? ==>
                  Hook(env, returned.source.value.code) == Some(returned.status))
  {
    var begun := Begin(n, env);
    FirstWaitKeepsInv(begun, t, env);
    var (known, unacknowledged) := FirstWait(begun, t, env);
    if unacknowledged.None? {
      if known.resultAvailable {
        FinishKeepsInv(known, env);
      } else {
        ResendKeepsInv(known, t, env);
        var (current, waiting) := Resend(known, t, env);
        if waiting.None? {
          PollKeepsInv(current, env.polled);
          var polled := DeliverAll(current, env.polled);
          if polled.resultAvailable {
            FinishKeepsInv(polled, env);
          }
        }
      }
    }
  }

  lemma HaltKeepsInv(n: Node, env: HaltEnv)
    requires Inv(n)
    ensures Inv(Halt(n, env).0) && Halt(n, env).0.sent == n.sent && !Halt(n, env).0.running
  {
  }

  // The state after a run, and what each of its ticks returned.
  ghost function Run(n: Node, t: Timing, events: seq<Event>): (r: (Node, seq<Returned>))
    requires Inv(n)
    ensures Inv(r.0)
  {
    if events == [] then (n, [])
    else
      var (m, log) := Run(n, t, events[..|events| - 1]);
      match events[|events| - 1]
      case Ticked(env) =>
        TickKeepsInv(m, t, env);
        var (after, returned) := Tick(m, t, env);
        (after, log + [returned])
      case Halted(env) =>
        HaltKeepsInv(m, env);
        (Halt(m, env).0, log)
  }

  // A node that has just been built.
  function Built(result: Result): Node {
    Node(false, false, false, None, None, result, 0, 0)
  }

  /**
    Over any run of ticks and halts, with answers of the server about any goal at any time: a tick that
    completes does so with a result of the goal that was last sent, and with what the hook makes of it.
    The run exists for every sequence of events, so no tick, halt or result ever looks at a handle that
    is not there.
  */
  lemma CompletionIsOfTheLastGoal(t: Timing, result: Result, events: seq<Event>, env: TickEnv)
    ensures Inv(Built(result))
    ensures var n := Run(Built(result), t, events).0;
            var (m, returned) := Tick(n, t, env);
            returned.Returned? && returned.source.Some? ==>
              && returned.source.value.goal == m.sent
              && Hook(env, returned.source.value.code) == Some(returned.status)
  {
    TickKeepsInv(Run(Built(result), t, events).0, t, env);
  }

  // Nothing that a run returns comes from goal g.
  ghost predicate NeverFrom(log: seq<Returned>, g: nat) {
    forall i :: 0 <= i < |log| && log[i].Returned? && log[i].source.Some? ==> log[i].source.value.goal != g
  }

  /**
    A goal that has been superseded by another one, and the last goal of a node that is idle, because it
    was halted, timed out, was rejected or has completed, never completes the node again.
  */
  lemma {:induction false} AbandonedGoalsStayAbandoned(n: Node, t: Timing, events: seq<Event>, g: nat)
    requires Inv(n) && (g < n.sent || (g == n.sent && !n.running))
    ensures var (m, log) := Run(n, t, events);
            NeverFrom(log, g) && (g < m.sent || (g == m.sent && !m.running))
  {
    if events != [] {
      var init := events[..|events| - 1];
      AbandonedGoalsStayAbandoned(n, t, init, g);
      var m := Run(n, t, init).0;
      match events[|events| - 1] {
        case Ticked(env) => TickKeepsInv(m, t, env);
        case Halted(env) => HaltKeepsInv(m, env);
      }
    }
  }

  /** Waiting never pushes the elapsed time past the timeout. */
  lemma WaitingStaysWithinTheTimeout(n: Node, elapsed: int, t: Timing, ack: Ack)
    requires n.future.Some? && elapsed <= t.timeout
    ensures match Await(n, elapsed, t, ack).1 case Pending(e) => e <= t.timeout case _ => true
  {
  }

  const MILLISECOND := 1_000_000

  // The clock during a tick: it does not go back, and a wait that times out takes its slice.
  ghost predicate Timely(n: Node, t: Timing, env: TickEnv, before: int, after: int) {
    var begun := Begin(n, env);
    && env.readAt >= (if n.running then before else env.sentAt)
    && env.rereadAt >= env.resentAt
    && (env.ack == TimedOut && begun.future.Some? ==>
          after >= env.readAt + Slice(Millis(env.readAt - begun.timeSent), t) * MILLISECOND)
    && (env.reack == TimedOut ==> after >= env.rereadAt + Slice(Millis(env.rereadAt - env.resentAt), t) * MILLISECOND)
  }

  // How often the node has returned RUNNING since it sent the goal that it waits for.
  function Waits(n: Node, m: Node, waits: nat): nat {
    if !m.running || m.future.None? then 0 else if m.sent == n.sent then waits + 1 else 1
  }

  ghost predicate WaitInv(n: Node, t: Timing, waits: nat, clock: int) {
    n.running && n.future.Some? ==>
      waits * t.loop < t.timeout && clock - n.timeSent >= waits * t.loop * MILLISECOND
  }

  // A wait that returns RUNNING is one more for the same goal, or the first one for a new goal.
  lemma PendingWait(n: Node, now: int, after: int, t: Timing, ack: Ack, waits: nat)
    requires n.future.Some? && t.loop > 0
    requires now - n.timeSent >= waits * t.loop * MILLISECOND
    requires ack == TimedOut ==> after >= now + Slice(Millis(now - n.timeSent), t) * MILLISECOND
    requires AwaitOrReturn(n, now, t, ack).1 == Some(RUNNING)
    ensures var m := AwaitOrReturn(n, now, t, ack).0;
            m == n && (waits + 1) * t.loop < t.timeout && after - n.timeSent >= (waits + 1) * t.loop * MILLISECOND
  {
  }

  lemma FirstWaitKeepsWaitInv(n: Node, t: Timing, env: TickEnv, waits: nat, before: int, after: int)
    requires Inv(n) && t.loop > 0 && WaitInv(n, t, waits, before) && Timely(n, t, env, before, after)
    requires FirstWait(Begin(n, env), t, env).1 == Some(RUNNING)
    ensures var m := Tick(n, t, env).0; WaitInv(m, t, Waits(n, m, waits), after)
  {
    var begun := Begin(n, env);
    PendingWait(begun, env.readAt, after, t, env.ack, if n.running then waits else 0);
  }

  lemma ResendKeepsWaitInv(n: Node, known: Node, t: Timing, env: TickEnv, waits: nat, before: int, after: int)
    requires Inv(n) && t.loop > 0 && Timely(n, t, env, before, after)
    requires (known, None) == FirstWait(Begin(n, env), t, env) && !known.resultAvailable && HasHandle(known)
    requires Resend(known, t, env).1 == Some(RUNNING)
    ensures var m := Tick(n, t, env).0; WaitInv(m, t, Waits(n, m, waits), after)
  {
  }

  lemma TickKeepsWaitInv(n: Node, t: Timing, env: TickEnv, waits: nat, before: int, after: int)
    requires Inv(n) && t.loop > 0 && WaitInv(n, t, waits, before) && Timely(n, t, env, before, after)
    ensures var m := Tick(n, t, env).0; WaitInv(m, t, Waits(n, m, waits), after)
  {
    var begun := Begin(n, env);
    FirstWaitKeepsInv(begun, t, env);
    var (known, unacknowledged) := FirstWait(begun, t, env);
    if unacknowledged == Some(RUNNING) {
      FirstWaitKeepsWaitInv(n, t, env, waits, before, after);
    } else if unacknowledged.None? && !known.resultAvailable {
      ResendKeepsInv(known, t, env);
      if Resend(known, t, env).1 == Some(RUNNING) {
        ResendKeepsWaitInv(n, known, t, env, waits, before, after);
      } else {
        assert !Tick(n, t, env).0.running || Tick(n, t, env).0.future.None?;
      }
    } else {
      assert !Tick(n, t, env).0.running || Tick(n, t, env).0.future.None?;
    }
  }

  // The clock after each event, and the one before the first.
  ghost predicate TimelyAt(n: Node, t: Timing, events: seq<Event>, clocks: seq<int>, i: nat)
    requires Inv(n) && i < |events| && |clocks| == |events| + 1
  {
    && clocks[i] <= clocks[i + 1]
    && (events[i].Ticked? ==> Timely(Run(n, t, events[..i]).0, t, events[i].tick, clocks[i], clocks[i + 1]))
  }

  ghost predicate TimelyRun(n: Node, t: Timing, events: seq<Event>, clocks: seq<int>)
    requires Inv(n) && |clocks| == |events| + 1
  {
    forall i :: 0 <= i < |events| ==> TimelyAt(n, t, events, clocks, i)
  }

  lemma TimelyPrefix(n: Node, t: Timing, events: seq<Event>, clocks: seq<int>)
    requires Inv(n) && events != [] && |clocks| == |events| + 1 && TimelyRun(n, t, events, clocks)
    ensures TimelyRun(n, t, events[..|events| - 1], clocks[..|events|])
  {
    var init := events[..|events| - 1];
    forall i | 0 <= i < |init|
      ensures TimelyAt(n, t, init, clocks[..|events|], i)
    {
      assert init[..i] == events[..i];
      assert TimelyAt(n, t, events, clocks, i);
    }
  }

  // How often RUNNING has been returned for the goal that is waited for.
  ghost function WaitsAfter(n: Node, t: Timing, events: seq<Event>): nat
    requires Inv(n)
  {
    if events == [] then 0
    else
      var init := events[..|events| - 1];
      Waits(Run(n, t, init).0, Run(n, t, events).0, WaitsAfter(n, t, init))
  }

  lemma {:induction false} RunKeepsWaitInv(n: Node, t: Timing, events: seq<Event>, clocks: seq<int>)
    requires Inv(n) && !n.running && t.loop > 0 && |clocks| == |events| + 1 && TimelyRun(n, t, events, clocks)
    ensures WaitInv(Run(n, t, events).0, t, WaitsAfter(n, t, events), clocks[|events|])
  {
    if events != [] {
      var k := |events| - 1;
      var init := events[..k];
      TimelyPrefix(n, t, events, clocks);
      RunKeepsWaitInv(n, t, init, clocks[..|events|]);
      assert TimelyAt(n, t, events, clocks, k);
      match events[k] {
        case Ticked(env) =>
          TickKeepsWaitInv(Run(n, t, init).0, t, env, WaitsAfter(n, t, init), clocks[k], clocks[k + 1]);
        case Halted(env) => HaltKeepsInv(Run(n, t, init).0, env);
      }
    }
  }

  lemma NoWaits(n: Node, t: Timing, events: seq<Event>)
    requires Inv(n)
    ensures !Run(n, t, events).0.running || Run(n, t, events).0.future.None? ==> WaitsAfter(n, t, events) == 0
  {
  }

  /**
    While a goal is unacknowledged the node returns RUNNING fewer than timeout / loop times, if every
    wait that times out takes its slice on the clock.
  */
  lemma WaitingEnds(n: Node, t: Timing, events: seq<Event>, clocks: seq<int>)
    requires Inv(n) && !n.running && t.loop > 0 && t.timeout > 0
    requires |clocks| == |events| + 1 && TimelyRun(n, t, events, clocks)
    ensures WaitsAfter(n, t, events) * t.loop < t.timeout
  {
    RunKeepsWaitInv(n, t, events, clocks);
    NoWaits(n, t, events);
    var waits := WaitsAfter(n, t, events);
    assert waits == 0 ==> waits * t.loop == 0;
  }

  class BtActionNode {
    const timing: Timing
    var running: bool
    var goalUpdated: bool
    var goalResultAvailable: bool
    var futureGoalHandle: Option<nat>
    var goalHandle: Option<nat>
    var result: Result
    var timeGoalSent: int
    ghost var sent: nat

    ghost function State(): Node
      reads this
    {
      Node(running, goalUpdated, goalResultAvailable, futureGoalHandle, goalHandle, result, sent, timeGoalSent)
    }

    constructor (timing: Timing, result: Result)
      ensures this.timing == timing && State() == Built(result)
    {
      this.timing, this.result := timing, result;
      running, goalUpdated, goalResultAvailable := false, false, false;
      futureGoalHandle, goalHandle := None, None;
      timeGoalSent, sent := 0, 0;
    }

    // The number of the goal is the identifier that the client gives it.
    method SendNewGoal(goal: nat, now: int)
      requires goal == sent + 1
      modifies this
      ensures State() == Send(old(State()), now)
    {
      goalResultAvailable := false;
      sent := sent + 1;
      futureGoalHandle := Some(goal);
      timeGoalSent := now;
    }

    method ResultCallback(r: Result)
      requires State().future.Some? || HasHandle(State())
      modifies this`goalResultAvailable, this`result
      ensures State() == Deliver(old(State()), r)
    {
      if futureGoalHandle.Some? {
        return;
      }
      if goalHandle.value == r.goal {
        goalResultAvailable := true;
        result := r;
      }
    }

    // The executor runs the callbacks of the results that have come.
    method SpinSome(results: seq<Result>)
      requires State().future.Some? || HasHandle(State())
      modifies this`goalResultAvailable, this`result
      ensures State() == DeliverAll(old(State()), results)
    {
      for i := 0 to |results|
        invariant State() == DeliverAll(old(State()), results[..i])
      {
        assert results[..i + 1][..i] == results[..i];
        ResultCallback(results[i]);
      }
      assert results[..|results|] == results;
    }

    method IsFutureGoalHandleComplete(elapsed: int, ack: Ack, waited: seq<Result>) returns (wait: Wait)
      requires futureGoalHandle.Some?
      modifies this
      ensures (State(), wait) == Await(old(State()), elapsed, timing, ack)
    {
      var remaining := timing.timeout - elapsed;
      if remaining <= 0 {
        futureGoalHandle := None;
        return Pending(elapsed);
      }
      var timeout := if remaining > timing.loop then timing.loop else remaining;
      SpinSome(waited);
      match ack {
        case Interrupted =>
          futureGoalHandle := None;
          return Failed;
        case Accepted =>
          goalHandle := futureGoalHandle;
          futureGoalHandle := None;
          return Acknowledged;
        case Rejected =>
          goalHandle := None;
          futureGoalHandle := None;
          return Failed;
        case TimedOut =>
          return Pending(elapsed + timeout);
      }
    }

    // Waits for the acknowledgement, and says what the tick returns when it has not come.
    method WaitForGoalHandle(now: int, ack: Ack, waited: seq<Result>) returns (unacknowledged: Option<Status>)
      requires futureGoalHandle.Some?
      modifies this
      ensures (State(), unacknowledged) == AwaitOrReturn(old(State()), now, timing, ack)
    {
      var wait := IsFutureGoalHandleComplete(Millis(now - timeGoalSent), ack, waited);
      match wait {
        case Acknowledged => return None;
        case Failed => return Some(FAILURE);
        case Pending(elapsed) =>
          if elapsed < timing.timeout {
            return Some(RUNNING);
          }
          futureGoalHandle := None;
          return Some(FAILURE);
      }
    }

    method BeginTick(goal: nat, env: TickEnv)
      requires goal == sent + 1
      modifies this
      ensures State() == Begin(old(State()), env)
    {
      if !running {
        running := true;
        goalUpdated := env.updatedOnTick;
        SendNewGoal(goal, env.sentAt);
      }
    }

    method SendUpdatedGoal(goal: nat, env: TickEnv) returns (unacknowledged: Option<Status>)
      requires HasHandle(State()) && goal == sent + 1
      modifies this
      ensures (State(), unacknowledged) == Resend(old(State()), timing, env)
    {
      goalUpdated := env.updatedOnWait;
      if goalUpdated && env.active {
        goalUpdated := false;
        SendNewGoal(goal, env.resentAt);
        unacknowledged := WaitForGoalHandle(env.rereadAt, env.reack, env.rewaited);
      } else {
        unacknowledged := None;
      }
    }

    method FinishTick(env: TickEnv) returns (returned: Returned)
      modifies this
      ensures (State(), returned) == Finish(old(State()), env)
    {
      var status;
      match result.code {
        case Succeeded => status := env.onSuccess;
        case Aborted => status := env.onAborted;
        case Canceled => status := env.onCanceled;
        case Unknown => return Thrown;
      }
      goalHandle := None;
      running := status == RUNNING;
      return Returned(status, Some(result));
    }

    // A tick, and the status that the tree then gives the node. The goals it may send are given.
    method TickOnce(goal: nat, updatedGoal: nat, env: TickEnv) returns (returned: Returned)
      requires Ready(State()) && goal == sent + 1 && updatedGoal == (if running then goal else goal + 1)
      modifies this
      ensures (State(), returned) == Tick(old(State()), timing, env)
    {
      BeginTick(goal, env);
      if futureGoalHandle.Some? {
        var unacknowledged := WaitForGoalHandle(env.readAt, env.ack, env.waited);
        if unacknowledged.Some? {
          running := unacknowledged.value == RUNNING;
          return Returned(unacknowledged.value, None);
        }
      }
      if !goalResultAvailable {
        var waiting := SendUpdatedGoal(updatedGoal, env);
        if waiting.Some? {
          running := waiting.value == RUNNING;
          return Returned(waiting.value, None);
        }
        SpinSome(env.polled);
        if !goalResultAvailable {
          return Returned(RUNNING, None);
        }
      }
      returned := FinishTick(env);
    }

    method HaltNode(env: HaltEnv) returns (canceled: Option<nat>)
      modifies this
      ensures (State(), canceled) == Halt(old(State()), env)
    {
      canceled := None;
      if running && goalHandle.Some? {
        SpinSome(env.polled);
        if env.active {
          canceled := goalHandle;
          SpinSome(env.canceling);
        }
      }
      running := false;
    }
  }
}
