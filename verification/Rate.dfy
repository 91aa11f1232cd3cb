/**
  The loop pacer: a rate keeps the instant its current interval started, and `Sleep` waits for the
  end of it. Time is a number of nanoseconds.
*/
module Rate {

  // What one call asks of the clock: the time read on entry, and the time read when it returns.
  datatype Call = Call(entered: int, returned: int)

  // The length of the sleep a call at `now` asks for; it does not sleep when this is not positive.
  function TimeToSleep(last: int, period: int, now: int): int {
    if now < last then period else last + period - now
  }

  // The start of the interval after a call at `now`.
  function NextInterval(last: int, period: int, now: int): int {
    if TimeToSleep(last, period, now) <= 0 && now > last + period + period
    then now + period
    else last + period
  }

  class GenericRate {
    const period: int
    var lastInterval: int

    constructor (period: int, now: int)
      ensures this.period == period && lastInterval == now
    {
      this.period := period;
      lastInterval := now;
    }

    // `wake` is the time at which a sleep that starts now would end; sleeping never ends early.
    method Sleep(now: int, wake: int) returns (slept: bool, ghost call: Call)
      requires period > 0
      requires wake >= now + TimeToSleep(lastInterval, period, now)
      modifies this
      ensures lastInterval == NextInterval(old(lastInterval), period, now)
      ensures slept <==> TimeToSleep(old(lastInterval), period, now) > 0
      ensures slept ==> TimeToSleep(old(lastInterval), period, now) <= period
      ensures call == Call(now, if slept then wake else now)
      ensures CallAllowed(old(lastInterval), period, call)
    {
      var nextInterval := lastInterval + period;
      if now < lastInterval {
        nextInterval := now + period;
      }
      var timeToSleep := nextInterval - now;
      lastInterval := lastInterval + period;
      if timeToSleep <= 0 {
        if now > nextInterval + period {
          lastInterval := now + period;
        }
        return false, Call(now, now);
      }
      return true, Call(now, wake);
    }
  }

  // A call that sleeps returns no earlier than it asked to; one that does not returns at once.
  ghost predicate CallAllowed(last: int, period: int, call: Call) {
    var wait := TimeToSleep(last, period, call.entered);
    if wait > 0 then call.returned >= call.entered + wait else call.returned == call.entered
  }

  // The start of the interval after a sequence of calls.
  function Interval(last: int, period: int, calls: seq<Call>): int {
    if calls == [] then last
    else NextInterval(Interval(last, period, calls[..|calls| - 1]), period, calls[|calls| - 1].entered)
  }

  // The return before call i, or the construction.
  function Before(start: int, calls: seq<Call>, i: nat): int
    requires i < |calls|
  {
    if i == 0 then start else calls[i - 1].returned
  }

  // Call i is allowed in its place, on a clock that has not gone back.
  ghost predicate InOrder(start: int, period: int, calls: seq<Call>, i: nat)
    requires i < |calls|
  {
    && CallAllowed(Interval(start, period, calls[..i]), period, calls[i])
    && Before(start, calls, i) <= calls[i].entered
  }

  // A run of calls on a rate built at `start`.
  ghost predicate Paced(start: int, period: int, calls: seq<Call>) {
    forall i :: 0 <= i < |calls| ==> InOrder(start, period, calls, i)
  }

  // Call i comes within its interval, and a sleep ends exactly when it was asked to.
  ghost predicate Punctual(start: int, period: int, calls: seq<Call>, i: nat)
    requires i < |calls|
  {
    && calls[i].entered < Before(start, calls, i) + period
    && calls[i].returned
       == calls[i].entered + TimeToSleep(Interval(start, period, calls[..i]), period, calls[i].entered)
  }

  lemma Prefix(start: int, period: int, calls: seq<Call>, n: nat)
    requires n <= |calls| && Paced(start, period, calls)
    ensures Paced(start, period, calls[..n])
    ensures forall i :: 0 <= i < n && Punctual(start, period, calls, i) ==> Punctual(start, period, calls[..n], i)
  {
    forall i | 0 <= i < n
      ensures InOrder(start, period, calls[..n], i)
      ensures Punctual(start, period, calls, i) ==> Punctual(start, period, calls[..n], i)
    {
      assert calls[..n][..i] == calls[..i];
      assert InOrder(start, period, calls, i);
    }
  }

  lemma Steps(n: int, period: int)
    ensures (n + 1) * period == n * period + period
  {
  }

  // Each call moves the interval by at least one period, and leaves it at most one period behind.
  lemma OneAdvance(start: int, period: int, calls: seq<Call>)
    requires period > 0 && calls != []
    ensures var last := Interval(start, period, calls);
            last >= Interval(start, period, calls[..|calls| - 1]) + period
            && last >= calls[|calls| - 1].entered - period
  {
  }

  lemma {:induction false} IntervalAdvances(start: int, period: int, calls: seq<Call>, i: nat)
    requires period > 0 && i <= |calls|
    ensures Interval(start, period, calls) >= Interval(start, period, calls[..i]) + (|calls| - i) * period
    decreases |calls|
  {
    if i < |calls| {
      var most := calls[..|calls| - 1];
      IntervalAdvances(start, period, most, i);
      assert most[..i] == calls[..i];
      OneAdvance(start, period, calls);
      Steps(|most| - i, period);
    } else {
      assert calls[..i] == calls;
    }
  }

  /**
    Whatever the work between calls, the overruns and the resynchronisations: n returns since
    construction take at least n periods.
  */
  lemma {:induction false} NReturnsTakeNPeriods(start: int, period: int, calls: seq<Call>)
    requires period > 0 && calls != [] && Paced(start, period, calls)
    ensures calls[|calls| - 1].returned >= start + |calls| * period
  {
    var n := |calls| - 1;
    assert InOrder(start, period, calls, n);
    IntervalAdvances(start, period, calls[..n], 0);
    assert calls[..n][..0] == [];
    assert |calls| * period == n * period + period;
    if n > 0 {
      Prefix(start, period, calls, n);
      NReturnsTakeNPeriods(start, period, calls[..n]);
    }
  }

  /**
    The same bound over any window of a run: from the entry of one call to the return of a later
    one there is at most one period less than the calls that separate them.
  */
  lemma {:induction false} AnyWindowIsPaced(start: int, period: int, calls: seq<Call>, i: nat, j: nat)
    requires period > 0 && i < j < |calls| && Paced(start, period, calls)
    ensures calls[j].returned >= calls[i].entered + (j - i - 1) * period
    decreases j
  {
    var before := calls[..j];
    assert InOrder(start, period, calls, j);
    var last := Interval(start, period, before);
    assert last >= calls[i].entered + (j - i - 2) * period by {
      IntervalAdvances(start, period, before, i + 1);
      OneAdvance(start, period, before[..i + 1]);
      Steps(j - i - 2, period);
    }
    Steps(j - i - 2, period);
    if calls[j].entered < last {
      if i + 1 < j {
        AnyWindowIsPaced(start, period, calls, i, j - 1);
      } else {
        assert InOrder(start, period, calls, i);
      }
    }
  }

  /** Of three calls made at one instant the third one sleeps. */
  lemma AtMostTwoWithoutSleep(start: int, period: int, calls: seq<Call>, i: nat)
    requires period > 0 && i + 2 < |calls| && Paced(start, period, calls)
    requires calls[i].entered == calls[i + 1].entered == calls[i + 2].entered
    ensures calls[i + 2].returned > calls[i + 2].entered
  {
    var l0 := Interval(start, period, calls[..i]);
    var l1 := Interval(start, period, calls[..i + 1]);
    var l2 := Interval(start, period, calls[..i + 2]);
    assert InOrder(start, period, calls, i);
    assert InOrder(start, period, calls, i + 1);
    assert InOrder(start, period, calls, i + 2);
    assert calls[..i + 1][..i] == calls[..i] && calls[..i + 2][..i + 1] == calls[..i + 1];
    assert l1 == NextInterval(l0, period, calls[i].entered);
    assert l2 == NextInterval(l1, period, calls[i].entered);
  }

  // The two that do not sleep happen: a rate that is two periods late, asked twice.
  lemma TwoWithoutSleep(period: int)
    requires period > 0
    ensures var late := Call(2 * period, 2 * period); Paced(0, period, [late, late])
  {
    var late := Call(2 * period, 2 * period);
    var calls := [late, late];
    assert calls[..0] == [] && calls[..1] == [late] && [late][..0] == [];
    assert Interval(0, period, []) == 0;
    assert Interval(0, period, calls[..1]) == NextInterval(0, period, 2 * period) == period;
    assert InOrder(0, period, calls, 0);
    assert InOrder(0, period, calls, 1);
  }

  /**
    A loop that is never late does not drift: when every call comes within its interval and the
    clock wakes it on time, the n-th return is at exactly n periods.
  */
  lemma {:induction false} PunctualCallsDoNotDrift(start: int, period: int, calls: seq<Call>)
    requires period > 0 && Paced(start, period, calls)
    requires forall i :: 0 <= i < |calls| ==> Punctual(start, period, calls, i)
    ensures Interval(start, period, calls) == start + |calls| * period
    ensures calls != [] ==> calls[|calls| - 1].returned == start + |calls| * period
    decreases |calls|
  {
    if calls != [] {
      var n := |calls| - 1;
      assert InOrder(start, period, calls, n) && Punctual(start, period, calls, n);
      Prefix(start, period, calls, n);
      PunctualCallsDoNotDrift(start, period, calls[..n]);
      Steps(n, period);
    }
  }

  // Call i comes more than two periods after its interval started: a whole cycle was missed.
  ghost predicate Misses(start: int, period: int, calls: seq<Call>, i: nat)
    requires i < |calls|
  {
    calls[i].entered > Interval(start, period, calls[..i]) + 2 * period
  }

  /**
    Without a missed cycle the beat is kept: however late calls are, the n-th interval starts n periods after
    the first.
  */
  lemma {:induction false} BeatIsKept(start: int, period: int, calls: seq<Call>)
    requires period > 0
    requires forall i :: 0 <= i < |calls| ==> !Misses(start, period, calls, i)
    ensures Interval(start, period, calls) == start + |calls| * period
    decreases |calls|
  {
    if calls != [] {
      var n := |calls| - 1;
      assert !Misses(start, period, calls, n);
      forall i | 0 <= i < n ensures !Misses(start, period, calls[..n], i) {
        assert calls[..n][..i] == calls[..i] && !Misses(start, period, calls, i);
      }
      BeatIsKept(start, period, calls[..n]);
      Steps(n, period);
    }
  }

  /**
    A missed cycle starts the beat anew, one period after the call: the next call sleeps a whole period if it
    comes before that, and otherwise until two periods after the call that missed.
  */
  lemma AMissedCycleStartsAnew(start: int, period: int, calls: seq<Call>, now: int)
    requires period > 0 && calls != [] && Misses(start, period, calls, |calls| - 1)
    ensures var missed := calls[|calls| - 1].entered;
            && (now < missed + period ==> TimeToSleep(Interval(start, period, calls), period, now) == period)
            && (now >= missed + period ==>
                  TimeToSleep(Interval(start, period, calls), period, now) == missed + 2 * period - now)
  {
  }

  /** The interval never starts more than one period after the last return: the pacer is never further ahead. */
  lemma {:induction false} IntervalIsNear(start: int, period: int, calls: seq<Call>)
    requires period > 0 && calls != [] && Paced(start, period, calls)
    ensures Interval(start, period, calls) <= calls[|calls| - 1].returned + period
  {
    var n := |calls| - 1;
    assert InOrder(start, period, calls, n);
    if n > 0 {
      Prefix(start, period, calls, n);
      IntervalIsNear(start, period, calls[..n]);
    } else {
      assert calls[..n] == [];
    }
  }
}
