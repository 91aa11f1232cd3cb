/** Exactly what a tick and a halt of an action node do, by the node's fields and the answers of the server. */
module BtTicks {
  import opened Messages
  import opened BtActionNode

  // Entry i is the last result of a goal.
  predicate IsLastOf(results: seq<Result>, goal: nat, i: int) {
    0 <= i < |results| && results[i].goal == goal && forall j :: i < j < |results| ==> results[j].goal != goal
  }

  ghost predicate HasResultOf(results: seq<Result>, goal: nat) {
    exists i :: 0 <= i < |results| && results[i].goal == goal
  }

  // One more result is the last of its goal, and changes nothing for the others.
  lemma OneMoreResult(results: seq<Result>, goal: nat)
    requires results != []
    ensures var init, k := results[..|results| - 1], |results| - 1;
            if results[k].goal == goal then
              HasResultOf(results, goal) && forall i :: IsLastOf(results, goal, i) ==> i == k
            else
              && (HasResultOf(results, goal) <==> HasResultOf(init, goal))
              && (forall i :: IsLastOf(results, goal, i) ==> IsLastOf(init, goal, i) && init[i] == results[i])
  {
  }

  // The node after results of which the last one of a goal stays.
  ghost predicate Keeps(n: Node, results: seq<Result>, goal: nat, m: Node) {
    && (m.resultAvailable <==> n.resultAvailable || HasResultOf(results, goal))
    && (forall i :: IsLastOf(results, goal, i) ==> m.result == results[i])
  }

  lemma KeepsOneMore(n: Node, results: seq<Result>, goal: nat, m: Node, r: Node)
    requires results != [] && Keeps(n, results[..|results| - 1], goal, m)
    requires var last := results[|results| - 1];
             r == if last.goal == goal then m.(resultAvailable := true, result := last) else m
    ensures Keeps(n, results, goal, r)
  {
    OneMoreResult(results, goal);
  }

  /** Of the results that come, the last one of the acknowledged goal stays. */
  lemma {:induction false} DeliveredIsTheLast(n: Node, results: seq<Result>)
    requires n.future.None? && HasHandle(n)
    ensures Keeps(n, results, n.handle.value, DeliverAll(n, results))
    decreases |results|
  {
    if results != [] {
      var m := DeliverAll(n, results[..|results| - 1]);
      DeliveredIsTheLast(n, results[..|results| - 1]);
      KeepsOneMore(n, results, n.handle.value, m, DeliverAll(n, results));
    }
  }

  // A goal has not been acknowledged when the tick looks, because it is sent by it or was sent before.
  predicate Unacknowledged(n: Node) {
    !n.running || n.future.Some?
  }

  function SentAt(n: Node, env: TickEnv): int {
    if n.running then n.timeSent else env.sentAt
  }

  // The goal is rejected, the wait is interrupted, or the timeout is reached before or by waiting.
  predicate WaitFails(elapsed: int, t: Timing, ack: Ack) {
    elapsed >= t.timeout || ack == Rejected || ack == Interrupted || (ack == TimedOut && elapsed + t.loop >= t.timeout)
  }

  // There is time left after the wait.
  predicate WaitGoesOn(elapsed: int, t: Timing, ack: Ack) {
    ack == TimedOut && elapsed < t.timeout && elapsed + t.loop < t.timeout
  }

  // The wait is made, and the goal is rejected.
  predicate Refused(elapsed: int, t: Timing, ack: Ack) {
    elapsed < t.timeout && ack == Rejected
  }

  predicate FirstFails(n: Node, t: Timing, env: TickEnv) {
    Unacknowledged(n) && WaitFails(Millis(env.readAt - SentAt(n, env)), t, env.ack)
  }

  predicate FirstGoesOn(n: Node, t: Timing, env: TickEnv) {
    Unacknowledged(n) && WaitGoesOn(Millis(env.readAt - SentAt(n, env)), t, env.ack)
  }

  // A result came with an earlier tick, which did not know its code or went on running.
  predicate HadResult(n: Node) {
    n.running && n.future.None? && n.resultAvailable
  }

  // The last goal is acknowledged and has no result yet.
  predicate Works(n: Node, t: Timing, env: TickEnv) {
    !FirstFails(n, t, env) && !FirstGoesOn(n, t, env) && !HadResult(n)
  }

  predicate Resends(n: Node, t: Timing, env: TickEnv) {
    Works(n, t, env) && env.updatedOnWait && env.active
  }

  predicate SecondFails(n: Node, t: Timing, env: TickEnv) {
    Resends(n, t, env) && WaitFails(Millis(env.rereadAt - env.resentAt), t, env.reack)
  }

  predicate SecondGoesOn(n: Node, t: Timing, env: TickEnv) {
    Resends(n, t, env) && WaitGoesOn(Millis(env.rereadAt - env.resentAt), t, env.reack)
  }

  // The tick looks for a result of the last goal.
  predicate Polls(n: Node, t: Timing, env: TickEnv) {
    Works(n, t, env) && !SecondFails(n, t, env) && !SecondGoesOn(n, t, env)
  }

  // The last goal after the tick: one is sent by a node that starts, and one by a node that sends again.
  function LastGoal(n: Node, t: Timing, env: TickEnv): nat {
    n.sent + (if n.running then 0 else 1) + (if Resends(n, t, env) then 1 else 0)
  }

  // What a tick makes of a result.
  function Of(env: TickEnv, result: Result): Returned {
    match result.code
    case Succeeded => Returned(env.onSuccess, Some(result))
    case Aborted => Returned(env.onAborted, Some(result))
    case Canceled => Returned(env.onCanceled, Some(result))
    case Unknown => Thrown
  }

  lemma FirstWaitExactly(n: Node, t: Timing, env: TickEnv)
    requires Inv(n)
    ensures var (known, status) := FirstWait(Begin(n, env), t, env);
            && (status == Some(FAILURE) <==> FirstFails(n, t, env))
            && (status == Some(RUNNING) <==> FirstGoesOn(n, t, env))
            && (status.Some? ==> status.value == FAILURE || status.value == RUNNING)
            && known.sent == n.sent + (if n.running then 0 else 1)
            && known.timeSent == SentAt(n, env)
            && known.goalUpdated == (if n.running then n.goalUpdated else env.updatedOnTick)
            && known.result == n.result
            && (status != Some(FAILURE) ==> known.running)
            && (known.future.Some? <==> FirstGoesOn(n, t, env))
            && (status == None ==>
                  && known.resultAvailable == HadResult(n)
                  && (!known.resultAvailable ==> known.handle == Some(known.sent)))
  {
  }

  // The second wait, of a goal that is sent again.
  lemma ResendExactly(n: Node, t: Timing, env: TickEnv)
    requires Inv(n) && Works(n, t, env)
    ensures var known := FirstWait(Begin(n, env), t, env).0;
            HasHandle(known) &&
            var (current, status) := Resend(known, t, env);
            && (status == Some(FAILURE) <==> SecondFails(n, t, env))
            && (status == Some(RUNNING) <==> SecondGoesOn(n, t, env))
            && (status.Some? ==> status.value == FAILURE || status.value == RUNNING)
            && current.sent == LastGoal(n, t, env)
            && current.timeSent == (if Resends(n, t, env) then env.resentAt else SentAt(n, env))
            && current.goalUpdated == (env.updatedOnWait && !env.active)
            && current.running
            && (current.future.Some? <==> SecondGoesOn(n, t, env))
            && (status == None ==> !current.resultAvailable && current.handle == Some(current.sent))
  {
    FirstWaitExactly(n, t, env);
  }

  // What a tick returns when it polls.
  // A result drops the handle, unless its code is unknown.
  predicate DropsWithResult(m: Node, returned: Returned) {
    && m.resultAvailable == (returned.Thrown? || returned.source.Some?)
    && m.handle == if returned.Returned? && returned.source.Some? then None else Some(m.sent)
  }

  lemma PollExactly(n: Node, t: Timing, env: TickEnv)
    requires Inv(n) && Polls(n, t, env)
    ensures var (m, returned) := Tick(n, t, env);
            && (if HasResultOf(env.polled, LastGoal(n, t, env)) then
                  forall i :: IsLastOf(env.polled, LastGoal(n, t, env), i) ==> returned == Of(env, env.polled[i])
                else returned == Returned(RUNNING, None))
            && (HasResultOf(env.polled, LastGoal(n, t, env)) ==> returned.Thrown? || returned.source.Some?)
            && DropsWithResult(m, returned)
  {
    FirstWaitExactly(n, t, env);
    ResendExactly(n, t, env);
    var known := FirstWait(Begin(n, env), t, env).0;
    var current := Resend(known, t, env).0;
    DeliveredIsTheLast(current, env.polled);
  }

  /**
    What a tick returns, in every case. It fails without a result exactly if a goal it waits for is rejected,
    the wait for it is interrupted, or the timeout is reached; it is running exactly if there is time left to
    wait, or the acknowledged goal has no result; and otherwise it is what the hook for the last result of the
    last goal says, or an exception for an unknown code. So it never succeeds without a result.
  */
  lemma TickReturns(n: Node, t: Timing, env: TickEnv)
    requires Inv(n)
    ensures var returned := Tick(n, t, env).1;
            var answered := Polls(n, t, env) && HasResultOf(env.polled, LastGoal(n, t, env));
            && (returned == Returned(FAILURE, None) <==> FirstFails(n, t, env) || SecondFails(n, t, env))
            && (returned == Returned(RUNNING, None) <==>
                  FirstGoesOn(n, t, env) || SecondGoesOn(n, t, env) || (Polls(n, t, env) && !answered))
            && (returned.Thrown? || returned.source.Some? <==> HadResult(n) || answered)
            && (HadResult(n) ==> returned == Of(env, n.result))
            && (answered ==>
                  forall i :: IsLastOf(env.polled, LastGoal(n, t, env), i) ==> returned == Of(env, env.polled[i]))
  {
    FirstWaitExactly(n, t, env);
    if Works(n, t, env) {
      ResendExactly(n, t, env);
      if Polls(n, t, env) {
        PollExactly(n, t, env);
      }
    }
  }

  /**
    What a tick leaves behind: the goal that was last sent and when, whether it is unacknowledged, and whether
    the node is still running.
  */
  lemma TickLeaves(n: Node, t: Timing, env: TickEnv)
    requires Inv(n)
    ensures var (m, returned) := Tick(n, t, env);
            && m.sent == LastGoal(n, t, env)
            && m.timeSent == (if Resends(n, t, env) then env.resentAt else SentAt(n, env))
            && m.goalUpdated == (if Works(n, t, env) then env.updatedOnWait && !env.active
                                 else if n.running then n.goalUpdated else env.updatedOnTick)
            && (m.future.Some? <==> FirstGoesOn(n, t, env) || SecondGoesOn(n, t, env))
            && (m.running <==> returned.Thrown? || returned.status == RUNNING)
  {
    FirstWaitExactly(n, t, env);
    if Works(n, t, env) {
      ResendExactly(n, t, env);
    }
  }

  // What a wait that ends the tick leaves of the handle.
  function HandleAfterWait(handle: Option<nat>, elapsed: int, t: Timing, ack: Ack): Option<nat> {
    if Refused(elapsed, t, ack) then None else handle
  }

  lemma FirstWaitHandle(n: Node, t: Timing, env: TickEnv)
    requires Inv(n) && (FirstFails(n, t, env) || FirstGoesOn(n, t, env))
    ensures Tick(n, t, env).0.handle ==
            HandleAfterWait(n.handle, Millis(env.readAt - SentAt(n, env)), t, env.ack)
  {
  }

  lemma SecondWaitHandle(n: Node, t: Timing, env: TickEnv)
    requires Inv(n) && (SecondFails(n, t, env) || SecondGoesOn(n, t, env))
    ensures Tick(n, t, env).0.handle ==
            HandleAfterWait(Some(LastGoal(n, t, env) - 1), Millis(env.rereadAt - env.resentAt), t, env.reack)
  {
    FirstWaitExactly(n, t, env);
  }

  lemma OldResultHandle(n: Node, t: Timing, env: TickEnv)
    requires Inv(n) && HadResult(n)
    ensures var (m, returned) := Tick(n, t, env);
            m.resultAvailable && m.handle == if returned.Thrown? then n.handle else None
  {
  }

  /**
    The handle after a tick: a rejection and a result drop it, and while a goal that was sent again is
    unacknowledged it is the one before.
  */
  lemma TickHandle(n: Node, t: Timing, env: TickEnv)
    requires Inv(n)
    ensures var (m, returned) := Tick(n, t, env);
            if FirstFails(n, t, env) || FirstGoesOn(n, t, env) then
              m.handle == HandleAfterWait(n.handle, Millis(env.readAt - SentAt(n, env)), t, env.ack)
            else if SecondFails(n, t, env) || SecondGoesOn(n, t, env) then
              m.handle == HandleAfterWait(Some(LastGoal(n, t, env) - 1), Millis(env.rereadAt - env.resentAt),
                                          t, env.reack)
            else if HadResult(n) then
              m.resultAvailable && m.handle == if returned.Thrown? then n.handle else None
            else DropsWithResult(m, returned)
  {
    if FirstFails(n, t, env) || FirstGoesOn(n, t, env) {
      FirstWaitHandle(n, t, env);
    } else if SecondFails(n, t, env) || SecondGoesOn(n, t, env) {
      SecondWaitHandle(n, t, env);
    } else if HadResult(n) {
      OldResultHandle(n, t, env);
    } else {
      PollExactly(n, t, env);
    }
  }

  /**
    A halt asks the server to cancel exactly if the node is running, has a handle, and the server works on its
    goal. If every goal is acknowledged that is the last one. A goal that is not is never canceled: what is, is
    one before it.
  */
  lemma HaltCancels(n: Node, env: HaltEnv)
    requires Inv(n)
    ensures var (m, canceled) := Halt(n, env);
            && (canceled.Some? <==> n.running && HasHandle(n) && env.active)
            && (canceled.Some? && n.future.None? ==> canceled == Some(n.sent))
            && (canceled.Some? && n.future.Some? ==> canceled.value < n.sent)
            && !m.running && m.future == n.future && m.handle == n.handle && m.sent == n.sent
  {
  }

  /** Nanoseconds are cut to whole milliseconds toward zero. */
  lemma MillisTruncates(nanoseconds: int)
    ensures nanoseconds >= 0 ==> 0 <= nanoseconds - Millis(nanoseconds) * MILLISECOND < MILLISECOND
    ensures nanoseconds <= 0 ==> -MILLISECOND < nanoseconds - Millis(nanoseconds) * MILLISECOND <= 0
  {
  }
}
