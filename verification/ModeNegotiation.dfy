/** Which input and output modes the controller may settle, and in which order they are tried. */
module ModeNegotiation {
  import opened Messages
  import opened ControlModes

  type Pair = (bv8, bv8)

  ghost predicate Sorted(modes: seq<bv8>) {
    forall i, j :: 0 <= i < j < |modes| ==> modes[i] <= modes[j]
  }

  // Output modes that name no control law.
  predicate Skipped(mode: bv8) {
    Level(mode) == UNSET_MODE_MASK || Level(mode) == HOVER_MODE_MASK
  }

  function Append(modes: seq<bv8>, mode: bv8): seq<bv8> {
    if mode != 0 && mode !in modes then modes + [mode] else modes
  }

  function PreferredOutput(preferred: bv8, platform: seq<bv8>): bv8 {
    if preferred != 0 then LastMatch(preferred, platform, MATCH_MODE_AND_YAW) else 0
  }

  function OutputModes(preferred: bv8, outs: seq<bv8>, platform: seq<bv8>): seq<bv8> {
    if outs == [] then Append([], PreferredOutput(preferred, platform))
    else
      var modes := OutputModes(preferred, outs[..|outs| - 1], platform);
      var mode := outs[|outs| - 1];
      if Skipped(mode) then modes else Append(modes, LastMatch(mode, platform, MATCH_MODE_AND_YAW))
  }

  // The input mode of the plugin that a request stands for.
  function ResolvedInput(input: bv8, ins: seq<bv8>): Option<bv8> {
    BestMatch(input, ins, MATCH_MODE_AND_YAW)
  }

  // The outputs that an input can feed, each with that input.
  function PairsOf(input: bv8, outputs: seq<bv8>): seq<Pair> {
    if outputs == [] then []
    else
      var pairs := PairsOf(input, outputs[..|outputs| - 1]);
      var output := outputs[|outputs| - 1];
      if Level(input) < Level(output) then pairs else pairs + [(input, output)]
  }

  function ModePairs(input: bv8, preferred: bv8, ins: seq<bv8>, outs: seq<bv8>, platform: seq<bv8>): seq<Pair> {
    match ResolvedInput(input, ins)
    case Some(resolved) => PairsOf(resolved, OutputModes(preferred, outs, platform))
    case None => []
  }

  method FindOutputModes(preferred: bv8, outs: seq<bv8>, platform: seq<bv8>) returns (modes: seq<bv8>)
    ensures modes == OutputModes(preferred, outs, platform)
  {
    modes := [];
    if preferred != 0 {
      var mode := FindLastMatchWithMask(preferred, platform, MATCH_MODE_AND_YAW);
      modes := Append(modes, mode);
    }
    for i := 0 to |outs|
      invariant modes == OutputModes(preferred, outs[..i], platform)
    {
      assert outs[..i + 1][..i] == outs[..i];
      if Level(outs[i]) == UNSET_MODE_MASK || Level(outs[i]) == HOVER_MODE_MASK {
        continue;
      }
      var mode := FindLastMatchWithMask(outs[i], platform, MATCH_MODE_AND_YAW);
      modes := Append(modes, mode);
    }
    assert outs[..|outs|] == outs;
  }

  method CheckSuitabilityInputMode(input: bv8, output: bv8, ins: seq<bv8>) returns (suitable: bool, resolved: bv8)
    ensures ResolvedInput(input, ins) == Some(resolved) || (ResolvedInput(input, ins) == None && resolved == input)
    ensures suitable <==> ResolvedInput(input, ins).Some? && Level(resolved) >= Level(output)
  {
    resolved := input;
    var found := false;
    for i := 0 to |ins|
      invariant !found ==> input !in ins[..i]
      invariant found ==> input in ins
    {
      if ins[i] == input {
        found := true;
        break;
      }
    }
    if !found {
      assert ins[..|ins|] == ins;
      for i := 0 to |ins|
        invariant !found
        invariant FirstMatch(input, ins, MATCH_MODE_AND_YAW) == FirstMatch(input, ins[i..], MATCH_MODE_AND_YAW)
      {
        assert ins[i..][1..] == ins[i + 1..];
        if CompareModes(ins[i], input, MATCH_MODE_AND_YAW) {
          found, resolved := true, ins[i];
          break;
        }
      }
    }
    if Level(resolved) < Level(output) {
      return false, resolved;
    }
    return found, resolved;
  }

  method FindModePairs(input: bv8, preferred: bv8, ins: seq<bv8>, outs: seq<bv8>, platform: seq<bv8>)
    returns (pairs: seq<Pair>)
    ensures pairs == ModePairs(input, preferred, ins, outs, platform)
  {
    pairs := [];
    var outputs := FindOutputModes(preferred, outs, platform);
    for i := 0 to |outputs|
      invariant pairs == match ResolvedInput(input, ins) { case Some(r) => PairsOf(r, outputs[..i]) case None => [] }
    {
      assert outputs[..i + 1][..i] == outputs[..i];
      var suitable, resolved := CheckSuitabilityInputMode(input, outputs[i], ins);
      if suitable {
        pairs := pairs + [(resolved, outputs[i])];
      }
    }
    assert outputs[..|outputs|] == outputs;
  }

  // An output mode of the controller, other than UNSET and HOVER, finds this platform mode.
  ghost predicate FoundBy(outs: seq<bv8>, platform: seq<bv8>, mode: bv8) {
    exists i :: 0 <= i < |outs| && NamesALaw(outs[i]) && mode == LastMatch(outs[i], platform, MATCH_MODE_AND_YAW)
  }

  predicate NamesALaw(mode: bv8) {
    Decode(mode).control != HOVER && Level(mode) != UNSET_MODE_MASK
  }

  lemma SkippedNamesNoLaw(mode: bv8)
    ensures Skipped(mode) <==> !NamesALaw(mode)
  {
  }

  ghost predicate NoRepeats(modes: seq<bv8>) {
    forall i, j :: 0 <= i < j < |modes| ==> modes[i] != modes[j]
  }

  lemma FoundByOneMore(outs: seq<bv8>, platform: seq<bv8>, mode: bv8)
    requires outs != []
    ensures var last := outs[|outs| - 1];
            FoundBy(outs, platform, mode) <==>
            || FoundBy(outs[..|outs| - 1], platform, mode)
            || (NamesALaw(last) && mode == LastMatch(last, platform, MATCH_MODE_AND_YAW))
  {
  }

  /**
    The outputs are exactly the non-zero platform modes that the preferred mode or an output mode of
    the controller finds, and none of them is there twice.
  */
  lemma {:induction false} OutputsSpec(preferred: bv8, outs: seq<bv8>, platform: seq<bv8>, mode: bv8)
    ensures NoRepeats(OutputModes(preferred, outs, platform))
    ensures mode in OutputModes(preferred, outs, platform)
      <==> mode != 0 && (mode == PreferredOutput(preferred, platform) || FoundBy(outs, platform, mode))
    ensures mode in OutputModes(preferred, outs, platform) ==> mode in platform
  {
    if outs != [] {
      OutputsSpec(preferred, outs[..|outs| - 1], platform, mode);
      FoundByOneMore(outs, platform, mode);
      SkippedNamesNoLaw(outs[|outs| - 1]);
      LastMatchSpec(outs[|outs| - 1], platform, MATCH_MODE_AND_YAW);
    }
    LastMatchSpec(preferred, platform, MATCH_MODE_AND_YAW);
  }

  // Of two outputs the first one is tried first: it is the preferred one, or the lower.
  predicate Precedes(a: bv8, b: bv8, first: bv8) {
    b != first && (a == first || a < b)
  }

  // `first` may only come first, and the other modes are strictly ascending.
  ghost predicate Ordered(modes: seq<bv8>, first: bv8) {
    forall i, j :: 0 <= i < j < |modes| ==> Precedes(modes[i], modes[j], first)
  }

  predicate Within(mode: bv8, first: bv8, bound: bv8) {
    mode == first || mode <= bound
  }

  // No mode but `first` is above the bound.
  ghost predicate Below(modes: seq<bv8>, first: bv8, bound: bv8) {
    forall i :: 0 <= i < |modes| ==> Within(modes[i], first, bound)
  }

  lemma BelowMore(modes: seq<bv8>, first: bv8, bound: bv8, more: bv8)
    requires Below(modes, first, bound) && bound <= more
    ensures Below(modes, first, more)
  {
  }

  lemma OrderedAppend(modes: seq<bv8>, first: bv8, mode: bv8)
    requires Ordered(modes, first)
    requires forall i :: 0 <= i < |modes| ==> Precedes(modes[i], mode, first)
    ensures Ordered(modes + [mode], first)
  {
  }

  lemma AppendOrdered(modes: seq<bv8>, first: bv8, bound: bv8, mode: bv8)
    requires Ordered(modes, first) && Below(modes, first, bound)
    requires first in modes || first == 0
    requires mode == 0 || mode == bound
    ensures Ordered(Append(modes, mode), first) && Below(Append(modes, mode), first, bound)
  {
  }

  // One more output mode of the controller, whether it is skipped or finds a platform mode.
  lemma OneMoreOutput(modes: seq<bv8>, first: bv8, bound: bv8, next: bv8, skipped: bool, found: bv8)
    requires Ordered(modes, first) && Below(modes, first, bound) && (first in modes || first == 0)
    requires bound <= next && (found == 0 || found == next)
    ensures var after := if skipped then modes else Append(modes, found);
            Ordered(after, first) && Below(after, first, next) && (first in after || first == 0)
  {
    BelowMore(modes, first, bound, next);
    AppendOrdered(modes, first, next, found);
  }

  // The bound on the outputs that a list of output modes finds.
  function Bound(outs: seq<bv8>): bv8 {
    if outs == [] then 0 else Key(outs[|outs| - 1])
  }

  lemma BoundIsMonotone(outs: seq<bv8>)
    requires Sorted(outs) && outs != []
    ensures Bound(outs[..|outs| - 1]) <= Bound(outs)
  {
  }

  /**
    The preferred mode comes first and the other outputs are strictly ascending, when the controller's
    modes are sorted and the platform's list is canonical.
  */
  lemma {:induction false} OutputsAreOrdered(preferred: bv8, outs: seq<bv8>, platform: seq<bv8>)
    requires Sorted(outs) && Canonical(platform)
    ensures var first := PreferredOutput(preferred, platform);
            var modes := OutputModes(preferred, outs, platform);
            Ordered(modes, first) && (first in modes || first == 0) && Below(modes, first, Bound(outs))
  {
    if outs != [] {
      var init, last := outs[..|outs| - 1], outs[|outs| - 1];
      OutputsAreOrdered(preferred, init, platform);
      CanonicalLast(last, platform);
      BoundIsMonotone(outs);
      OneMoreOutput(OutputModes(preferred, init, platform), PreferredOutput(preferred, platform), Bound(init),
                    Bound(outs), Skipped(last), LastMatch(last, platform, MATCH_MODE_AND_YAW));
    }
  }

  lemma {:induction false} PairsOfSpec(input: bv8, outputs: seq<bv8>, output: bv8)
    ensures (input, output) in PairsOf(input, outputs) <==> output in outputs && Level(input) >= Level(output)
    ensures forall p :: p in PairsOf(input, outputs) ==> p.0 == input
  {
    if outputs != [] {
      PairsOfSpec(input, outputs[..|outputs| - 1], output);
      assert outputs == outputs[..|outputs| - 1] + [outputs[|outputs| - 1]];
    }
  }

  /**
    Every pair has the one input the request resolves to, and a pair is there exactly when its output
    is one of the outputs and the input is not below it.
  */
  lemma PairsSpec(input: bv8, preferred: bv8, ins: seq<bv8>, outs: seq<bv8>, platform: seq<bv8>, pair: Pair)
    ensures pair in ModePairs(input, preferred, ins, outs, platform) <==>
      && ResolvedInput(input, ins) == Some(pair.0)
      && Level(pair.0) >= Level(pair.1)
      && pair.1 != 0
      && (pair.1 == PreferredOutput(preferred, platform) || FoundBy(outs, platform, pair.1))
    ensures pair in ModePairs(input, preferred, ins, outs, platform) ==>
      pair.0 in ins && Key(pair.0) == Key(input) && pair.1 in platform
  {
    var outputs := OutputModes(preferred, outs, platform);
    OutputsSpec(preferred, outs, platform, pair.1);
    FirstMatchSpec(input, ins, MATCH_MODE_AND_YAW);
    if ResolvedInput(input, ins).Some? {
      PairsOfSpec(ResolvedInput(input, ins).value, outputs, pair.1);
      DecodeByKey(input, ResolvedInput(input, ins).value);
    }
  }

  function Outputs(pairs: seq<Pair>): seq<bv8> {
    seq(|pairs|, i requires 0 <= i < |pairs| => pairs[i].1)
  }

  lemma {:induction false} PairsAreOrdered(input: bv8, outputs: seq<bv8>, first: bv8)
    requires Ordered(outputs, first)
    ensures Ordered(Outputs(PairsOf(input, outputs)), first)
  {
    if outputs != [] {
      var init, last := outputs[..|outputs| - 1], outputs[|outputs| - 1];
      assert Ordered(init, first) by {
        assert forall i :: 0 <= i < |init| ==> init[i] == outputs[i];
      }
      PairsAreOrdered(input, init, first);
      var before := Outputs(PairsOf(input, init));
      forall i | 0 <= i < |before|
        ensures Precedes(before[i], last, first)
      {
        PairsOfSpec(input, init, before[i]);
        assert PairsOf(input, init)[i] == (input, before[i]);
        var k :| 0 <= k < |init| && init[k] == before[i];
        assert outputs[k] == before[i];
      }
      if Level(input) >= Level(last) {
        OrderedAppend(before, first, last);
        assert Outputs(PairsOf(input, outputs)) == before + [last];
      }
    }
  }

  // The first of a list of pairs that works.
  function FirstWorking(pairs: seq<Pair>, works: Pair -> bool): Option<nat> {
    if pairs == [] then None
    else if works(pairs[0]) then Some(0)
    else match FirstWorking(pairs[1..], works) case Some(i) => Some(i + 1) case None => None
  }

  lemma {:induction false} FirstWorkingSpec(pairs: seq<Pair>, works: Pair -> bool)
    ensures match FirstWorking(pairs, works)
            case Some(i) => i < |pairs| && works(pairs[i]) && forall j :: 0 <= j < i ==> !works(pairs[j])
            case None => forall j :: 0 <= j < |pairs| ==> !works(pairs[j])
  {
    if pairs != [] && !works(pairs[0]) {
      FirstWorkingSpec(pairs[1..], works);
      assert forall j :: 0 < j < |pairs| ==> pairs[j] == pairs[1..][j - 1];
    }
  }

  // A pair works, and every other pair that works comes after it.
  ghost predicate Best(pairs: seq<Pair>, works: Pair -> bool, first: bv8, best: Pair) {
    && best in pairs && works(best)
    && (forall p :: p in pairs && works(p) && p != best ==> Precedes(best.1, p.1, first))
  }

  lemma FirstIsBest(pairs: seq<Pair>, works: Pair -> bool, first: bv8, i: nat)
    requires Ordered(Outputs(pairs), first) && FirstWorking(pairs, works) == Some(i)
    ensures i < |pairs| && Best(pairs, works, first, pairs[i])
  {
    FirstWorkingSpec(pairs, works);
    forall p | p in pairs && works(p) && p != pairs[i]
      ensures Precedes(pairs[i].1, p.1, first)
    {
      var j :| 0 <= j < |pairs| && pairs[j] == p;
      assert Precedes(Outputs(pairs)[i], Outputs(pairs)[j], first);
    }
  }

  /**
    Trying the pairs in order settles the best one: the preferred output whenever it works, and else
    the lowest output that works, of all the pairs that could serve the request. Nothing is settled
    only when no pair works.
  */
  lemma SettledIsBest(input: bv8, preferred: bv8, ins: seq<bv8>, outs: seq<bv8>, platform: seq<bv8>,
                      works: Pair -> bool)
    requires Sorted(outs) && Canonical(platform)
    ensures var pairs := ModePairs(input, preferred, ins, outs, platform);
            match FirstWorking(pairs, works)
            case Some(i) => i < |pairs| && Best(pairs, works, PreferredOutput(preferred, platform), pairs[i])
            case None => forall p :: p in pairs ==> !works(p)
  {
    var pairs := ModePairs(input, preferred, ins, outs, platform);
    FirstWorkingSpec(pairs, works);
    if i :| FirstWorking(pairs, works) == Some(i) {
      OutputsAreOrdered(preferred, outs, platform);
      var first := PreferredOutput(preferred, platform);
      PairsAreOrdered(ResolvedInput(input, ins).value, OutputModes(preferred, outs, platform), first);
      FirstIsBest(pairs, works, first, i);
    }
  }
}
