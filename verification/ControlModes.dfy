/**
  Control modes as bytes and as messages: the encoding, the two searches for a mode in a list, the
  resolution of a request, and the frames a mode needs.
*/
module ControlModes {
  import opened Messages

  const MATCH_CONTROL_MODE: bv8 := 0xF0
  const MATCH_YAW_MODE: bv8 := 0x0C
  const MATCH_MODE_AND_YAW: bv8 := 0xFC
  const MATCH_RESERVED_BITS: bv8 := 0x03
  const UNSET_MODE_MASK: bv8 := 0x00
  const HOVER_MODE_MASK: bv8 := 0x10

  function Level(mode: bv8): bv8 {
    mode & MATCH_CONTROL_MODE
  }

  // Control mode and yaw mode, without the reserved bits.
  function Key(mode: bv8): bv8 {
    mode & MATCH_MODE_AND_YAW
  }

  predicate CompareModes(mode1: bv8, mode2: bv8, mask: bv8) {
    (mode1 & mask) == (mode2 & mask)
  }

  function EncodeControl(control: Int8): bv8 {
    if control == BODY_RATES then 0x20
    else if control == ATTITUDE then 0x30
    else if control == SPEED then 0x40
    else if control == SPEED_IN_A_PLANE then 0x50
    else if control == POSITION then 0x60
    else if control == TRAJECTORY then 0x70
    else if control == HOVER then 0x10
    else 0x00
  }

  function EncodeYaw(yaw: Int8): bv8 {
    if yaw == YAW_SPEED then 0x04 else if yaw == YAW_NONE then 0x08 else 0x00
  }

  // A field that is not recognized leaves its bits at zero.
  function Encode(mode: ControlMode): bv8 {
    EncodeControl(mode.control) | EncodeYaw(mode.yaw)
  }

  // Bits that are not recognized leave their field at its default value, zero.
  function Decode(mode: bv8): ControlMode {
    var level := Level(mode);
    var control :=
      if level == 0x10 then HOVER
      else if level == 0x20 then BODY_RATES
      else if level == 0x30 then ATTITUDE
      else if level == 0x40 then SPEED
      else if level == 0x50 then SPEED_IN_A_PLANE
      else if level == 0x60 then POSITION
      else if level == 0x70 then TRAJECTORY
      else UNSET;
    var yaw := mode & MATCH_YAW_MODE;
    ControlMode(control, if yaw == 0x04 then YAW_SPEED else if yaw == 0x00 then YAW_ANGLE else YAW_NONE)
  }

  // A message whose fields both have an encoding.
  predicate Recognized(mode: ControlMode) {
    UNSET <= mode.control <= TRAJECTORY && YAW_NONE <= mode.yaw <= YAW_SPEED
  }

  // A byte whose fields both have a decoding.
  predicate WellFormed(mode: bv8) {
    Level(mode) <= 0x70 && mode & MATCH_YAW_MODE != 0x0C
  }

  /** Encoding and decoding undo each other exactly on what the encoding recognizes. */
  lemma RoundTrip(mode: ControlMode, byte: bv8)
    ensures Decode(Encode(mode)) == mode <==> Recognized(mode)
    ensures Encode(Decode(byte)) == Key(byte) <==> WellFormed(byte)
    ensures Decode(Encode(Decode(byte))) == Decode(byte)
    ensures WellFormed(Encode(mode)) && Key(Encode(mode)) == Encode(mode)
  {
    EncodedFields(mode);
    EncodedFields(Decode(byte));
  }

  lemma EncodedFields(mode: ControlMode)
    ensures Level(Encode(mode)) == EncodeControl(mode.control)
    ensures Encode(mode) & MATCH_YAW_MODE == EncodeYaw(mode.yaw)
  {
  }

  /**
    The bytes are those that the platforms' mode files document, so the levels rise from HOVER, which asks
    least of a platform, to TRAJECTORY.
  */
  lemma DocumentedBytes(yaw: Int8)
    ensures Encode(ControlMode(UNSET, YAW_ANGLE)) == 0x00 && Encode(ControlMode(HOVER, YAW_ANGLE)) == 0x10
    ensures Encode(ControlMode(BODY_RATES, YAW_SPEED)) == 0x24
    ensures Encode(ControlMode(ATTITUDE, YAW_ANGLE)) == 0x30 && Encode(ControlMode(ATTITUDE, YAW_SPEED)) == 0x34
    ensures Encode(ControlMode(SPEED, YAW_ANGLE)) == 0x40 && Encode(ControlMode(SPEED, YAW_SPEED)) == 0x44
    ensures Encode(ControlMode(SPEED_IN_A_PLANE, YAW_ANGLE)) == 0x50
    ensures Encode(ControlMode(POSITION, YAW_ANGLE)) == 0x60 && Encode(ControlMode(TRAJECTORY, YAW_ANGLE)) == 0x70
    ensures Encode(NO_MODE) == 0x08
    ensures Level(Encode(ControlMode(UNSET, yaw))) < Level(Encode(ControlMode(HOVER, yaw)))
              < Level(Encode(ControlMode(BODY_RATES, yaw))) < Level(Encode(ControlMode(ATTITUDE, yaw)))
              < Level(Encode(ControlMode(SPEED, yaw))) < Level(Encode(ControlMode(SPEED_IN_A_PLANE, yaw)))
              < Level(Encode(ControlMode(POSITION, yaw))) < Level(Encode(ControlMode(TRAJECTORY, yaw)))
  {
  }

  // Decoding looks at the key alone, so equal keys name the same mode.
  lemma DecodeByKey(a: bv8, b: bv8)
    ensures Key(a) == Key(b) ==> Decode(a) == Decode(b)
    ensures Key(a) == Key(b) <==> CompareModes(a, b, MATCH_MODE_AND_YAW)
    ensures Level(a) == Level(b) <==> CompareModes(a, b, MATCH_CONTROL_MODE)
    ensures Decode(a).control == HOVER <==> Level(a) == HOVER_MODE_MASK
    ensures Key(a) == Key(b) ==> Level(a) == Level(b)
  {
  }

  // The first mode of the list that matches under the mask.
  function FirstMatch(mode: bv8, list: seq<bv8>, mask: bv8): Option<bv8> {
    if list == [] then None
    else if CompareModes(mode, list[0], mask) then Some(list[0])
    else FirstMatch(mode, list[1..], mask)
  }

  // The platform's search: the mode itself when it is listed, else the first that matches.
  function BestMatch(mode: bv8, list: seq<bv8>, mask: bv8): Option<bv8> {
    if mode in list then Some(mode) else FirstMatch(mode, list, mask)
  }

  // The controller's search: the mode itself when it is listed, else the last that matches, else 0.
  function LastMatch(mode: bv8, list: seq<bv8>, mask: bv8): bv8 {
    if mode in list then mode
    else if list == [] then 0
    else if CompareModes(mode, list[|list| - 1], mask) then list[|list| - 1]
    else LastMatch(mode, list[..|list| - 1], mask)
  }

  // Entry i is the first of the list that matches.
  ghost predicate IsFirstMatch(mode: bv8, list: seq<bv8>, mask: bv8, i: int) {
    && 0 <= i < |list| && CompareModes(mode, list[i], mask)
    && forall j :: 0 <= j < i ==> !CompareModes(mode, list[j], mask)
  }

  lemma {:induction false} FirstMatchSpec(mode: bv8, list: seq<bv8>, mask: bv8)
    ensures FirstMatch(mode, list, mask).Some? ==>
      FirstMatch(mode, list, mask).value in list && CompareModes(mode, FirstMatch(mode, list, mask).value, mask)
    ensures FirstMatch(mode, list, mask).Some? <==> exists c :: c in list && CompareModes(mode, c, mask)
    ensures FirstMatch(mode, list, mask).Some? ==>
              exists i :: IsFirstMatch(mode, list, mask, i) && list[i] == FirstMatch(mode, list, mask).value
  {
    if list != [] {
      FirstMatchSpec(mode, list[1..], mask);
      assert list == [list[0]] + list[1..];
      if CompareModes(mode, list[0], mask) {
        assert IsFirstMatch(mode, list, mask, 0);
      } else if i :| IsFirstMatch(mode, list[1..], mask, i) && list[1..][i] == FirstMatch(mode, list[1..], mask).value {
        assert IsFirstMatch(mode, list, mask, i + 1);
      }
    }
  }

  lemma {:induction false} FirstMatchAppend(mode: bv8, list: seq<bv8>, last: bv8, mask: bv8)
    ensures FirstMatch(mode, list + [last], mask)
            == match FirstMatch(mode, list, mask)
               case Some(m) => Some(m)
               case None => if CompareModes(mode, last, mask) then Some(last) else None
  {
    if list == [] {
      assert [last][1..] == [];
    } else {
      FirstMatchAppend(mode, list[1..], last, mask);
      assert (list + [last])[1..] == list[1..] + [last];
    }
  }

  // Entry i is the last of the list that matches.
  ghost predicate IsLastMatch(mode: bv8, list: seq<bv8>, mask: bv8, i: int) {
    && 0 <= i < |list| && CompareModes(mode, list[i], mask)
    && forall j :: i < j < |list| ==> !CompareModes(mode, list[j], mask)
  }

  // The listed mode itself, else the last match. A zero result says that nothing matches only for a mode that
  // has some bit under the mask.
  lemma {:induction false} LastMatchSpec(mode: bv8, list: seq<bv8>, mask: bv8)
    ensures var m := LastMatch(mode, list, mask); m != 0 ==> m in list && CompareModes(mode, m, mask)
    ensures mode & mask != 0 && LastMatch(mode, list, mask) == 0 ==>
              forall c :: c in list ==> !CompareModes(mode, c, mask)
    ensures LastMatch(mode, list, mask) != 0 && mode !in list ==>
              exists i :: IsLastMatch(mode, list, mask, i) && list[i] == LastMatch(mode, list, mask)
    ensures mode in list ==> LastMatch(mode, list, mask) == mode
    decreases |list|
  {
    if mode in list {
      MaskedZero(mode, mask);
    } else if list != [] {
      var init, last := list[..|list| - 1], |list| - 1;
      assert list == init + [list[last]];
      if CompareModes(mode, list[last], mask) {
        assert IsLastMatch(mode, list, mask, last);
      } else {
        LastMatchSpec(mode, init, mask);
        if i :| IsLastMatch(mode, init, mask, i) && init[i] == LastMatch(mode, init, mask) {
          assert IsLastMatch(mode, list, mask, i);
        }
      }
    }
  }

  lemma MaskedZero(mode: bv8, mask: bv8)
    ensures mode & mask != 0 ==> mode != 0
  {
  }

  // What the platform keeps of its configuration: no reserved bits, and no mode twice.
  ghost predicate Canonical(list: seq<bv8>) {
    && (forall i :: 0 <= i < |list| ==> Key(list[i]) == list[i])
    && (forall i, j :: 0 <= i < j < |list| ==> list[i] != list[j])
  }

  // The modes of a configuration, each where its key first appears.
  function Loaded(raw: seq<bv8>): seq<bv8> {
    if raw == [] then []
    else
      var loaded := Loaded(raw[..|raw| - 1]);
      var mode := Key(raw[|raw| - 1]);
      if mode in loaded then loaded else loaded + [mode]
  }

  lemma KeyOfKey(mode: bv8)
    ensures Key(Key(mode)) == Key(mode) && Key(mode) == mode & !MATCH_RESERVED_BITS
  {
  }

  // In a canonical list the only mode that matches is the key itself.
  lemma CanonicalMatch(mode: bv8, list: seq<bv8>)
    requires Canonical(list)
    ensures forall c :: c in list ==> (CompareModes(mode, c, MATCH_MODE_AND_YAW) <==> c == Key(mode))
  {
  }

  lemma {:induction false} LoadedIsCanonical(raw: seq<bv8>)
    ensures Canonical(Loaded(raw))
  {
    if raw != [] {
      LoadedIsCanonical(raw[..|raw| - 1]);
      KeyOfKey(raw[|raw| - 1]);
    }
  }

  /** What loading leaves is canonical and offers exactly the modes of the configuration. */
  lemma {:induction false} LoadedSpec(raw: seq<bv8>, mode: bv8)
    ensures Canonical(Loaded(raw))
    ensures mode in Loaded(raw) <==> exists i :: 0 <= i < |raw| && Key(raw[i]) == mode
  {
    LoadedIsCanonical(raw);
    if raw != [] {
      var init := raw[..|raw| - 1];
      LoadedSpec(init, mode);
      if i :| 0 <= i < |init| && Key(init[i]) == mode {
        assert Key(raw[i]) == mode;
      } else if Key(raw[|raw| - 1]) == mode {
        assert mode in Loaded(raw);
      }
    }
  }

  /** The modes keep the order in which the configuration first names them. */
  lemma {:induction false} LoadedKeepsOrder(raw: seq<bv8>, i: nat, j: nat)
    requires i < j < |Loaded(raw)|
    ensures exists p :: 0 <= p < |raw| && Key(raw[p]) == Loaded(raw)[i]
                        && forall q :: 0 <= q <= p ==> Key(raw[q]) != Loaded(raw)[j]
  {
    var init := raw[..|raw| - 1];
    LoadedSpec(init, Loaded(raw)[i]);
    LoadedSpec(init, Loaded(raw)[j]);
    if j < |Loaded(init)| {
      LoadedKeepsOrder(init, i, j);
      var p :| 0 <= p < |init| && Key(init[p]) == Loaded(init)[i]
               && forall q :: 0 <= q <= p ==> Key(init[q]) != Loaded(init)[j];
      assert Key(raw[p]) == Loaded(raw)[i];
    } else {
      var p :| 0 <= p < |init| && Key(init[p]) == Loaded(raw)[i];
      assert Key(raw[p]) == Loaded(raw)[i];
      forall q | 0 <= q <= p
        ensures Key(raw[q]) != Loaded(raw)[j]
      {
        LoadedSpec(init, Key(raw[q]));
        assert Key(init[q]) == Key(raw[q]);
        LoadedIsCanonical(raw);
      }
    }
  }

  /**
    On a list the platform loaded, the controller's search and the platform's find the same mode,
    and both say whether there is one, except for the mode 0, which the controller cannot tell from
    "no match".
  */
  lemma {:induction false} SearchesAgree(mode: bv8, list: seq<bv8>)
    requires Canonical(list)
    ensures LastMatch(mode, list, MATCH_MODE_AND_YAW) == (if Key(mode) in list then Key(mode) else 0)
    ensures BestMatch(mode, list, MATCH_MODE_AND_YAW) == (if Key(mode) in list then Some(Key(mode)) else None)
    ensures (LastMatch(mode, list, MATCH_MODE_AND_YAW) != 0 <==> BestMatch(mode, list, MATCH_MODE_AND_YAW).Some?)
      <==> !(Key(mode) == 0 && 0 in list)
  {
    CanonicalMatch(mode, list);
    FirstMatchSpec(mode, list, MATCH_MODE_AND_YAW);
    CanonicalLast(mode, list);
    assert mode in list ==> Key(mode) == mode;
    assert CompareModes(mode, mode, MATCH_MODE_AND_YAW);
  }

  lemma {:induction false} CanonicalLast(mode: bv8, list: seq<bv8>)
    requires Canonical(list)
    ensures LastMatch(mode, list, MATCH_MODE_AND_YAW) == if Key(mode) in list then Key(mode) else 0
    decreases |list|
  {
    CanonicalMatch(mode, list);
    assert mode in list ==> Key(mode) == mode;
    if list != [] {
      var init := list[..|list| - 1];
      assert list == init + [list[|list| - 1]];
      CanonicalLast(mode, init);
    }
  }

  // Without the loading the searches may differ: two entries with one key are enough.
  lemma SearchesMayDifferOnRawLists()
    ensures LastMatch(0x43, [0x40, 0x41], MATCH_MODE_AND_YAW) == 0x41
    ensures BestMatch(0x43, [0x40, 0x41], MATCH_MODE_AND_YAW) == Some(0x40)
  {
  }

  function ResolveMask(request: ControlMode): bv8 {
    if request.control == HOVER then MATCH_CONTROL_MODE else MATCH_CONTROL_MODE | MATCH_YAW_MODE
  }

  // The available mode a request stands for.
  function Resolve(request: ControlMode, available: seq<bv8>): Option<ControlMode> {
    match BestMatch(Encode(request), available, ResolveMask(request))
    case Some(match_) => Some(Decode(match_))
    case None => None
  }

  // The same mode, up to the yaw mode of HOVER.
  predicate SameMode(a: ControlMode, b: ControlMode) {
    a == b || (a.control == HOVER && b.control == HOVER)
  }

  // Some listed mode has the control and yaw mode of a request, or its control mode alone for a HOVER.
  ghost predicate Offered(request: ControlMode, available: seq<bv8>) {
    exists c :: c in available && StandsFor(c, request)
  }

  predicate StandsFor(c: bv8, request: ControlMode) {
    if request.control == HOVER then Level(c) == HOVER_MODE_MASK else Key(c) == Encode(request)
  }

  lemma MatchIsStandsFor(c: bv8, request: ControlMode)
    ensures CompareModes(Encode(request), c, ResolveMask(request)) <==> StandsFor(c, request)
    ensures StandsFor(c, request) ==> SameMode(Decode(c), Decode(Encode(request))) && StandsFor(c, Decode(c))
  {
  }

  /**
    A request resolves exactly when the list offers it, to a listed mode that stands for it: to itself, up
    to its unrecognized fields and the yaw of a HOVER. What it resolves to is offered as well.
  */
  lemma ResolveKeepsTheMode(request: ControlMode, available: seq<bv8>)
    ensures Resolve(request, available).Some? <==> Offered(request, available)
    ensures Resolve(request, available).Some? ==>
              var mode := Resolve(request, available).value;
              && SameMode(mode, Decode(Encode(request))) && Offered(mode, available)
              && exists c :: c in available && Decode(c) == mode
  {
    var e, mask := Encode(request), ResolveMask(request);
    FirstMatchSpec(e, available, mask);
    forall c: bv8
      ensures CompareModes(e, c, mask) <==> StandsFor(c, request)
      ensures StandsFor(c, request) ==> SameMode(Decode(c), Decode(e)) && StandsFor(c, Decode(c))
    {
      MatchIsStandsFor(c, request);
    }
    assert CompareModes(e, e, mask);
  }

  // The same mode is offered by the same lists.
  lemma OfferedBySame(a: ControlMode, b: ControlMode, available: seq<bv8>)
    requires SameMode(a, b)
    ensures Offered(a, available) <==> Offered(b, available)
  {
  }

  // The mode before any change has an encoding, which a list need not hold.
  const UNSET_KEY: bv8 := 0x08

  lemma UnsetIsOfferedByItsKey(available: seq<bv8>)
    ensures Offered(NO_MODE, available) <==> exists c :: c in available && Key(c) == UNSET_KEY
  {
  }

  /** A mode that the list offers resolves to exactly itself, when it has an encoding. */
  lemma ListedModeResolvesToItself(mode: bv8, available: seq<bv8>)
    requires mode in available && Key(mode) == mode
    ensures WellFormed(mode) ==> Resolve(Decode(mode), available) == Some(Decode(mode))
  {
  }

  datatype CommandFrameUsage = CommandFrameUsage(pose: bool, twist: bool)

  // The commands a mode drives, and so the frames it needs.
  function FrameUsage(mode: ControlMode): CommandFrameUsage {
    var yawInPose := mode.yaw == YAW_ANGLE;
    if mode.control in {POSITION, SPEED_IN_A_PLANE, TRAJECTORY} then CommandFrameUsage(true, true)
    else if mode.control == ATTITUDE then CommandFrameUsage(true, !yawInPose)
    else if mode.control == SPEED then CommandFrameUsage(yawInPose, true)
    else CommandFrameUsage(false, false)
  }

  // The modes that need a frame for a pose: those that carry a position, an attitude or a yaw angle.
  predicate NeedsPose(mode: ControlMode) {
    || mode.control in {POSITION, SPEED_IN_A_PLANE, TRAJECTORY, ATTITUDE}
    || (mode.control == SPEED && mode.yaw == YAW_ANGLE)
  }

  // The modes that need a frame for a twist: those that carry a velocity, and an attitude without a yaw angle.
  predicate NeedsTwist(mode: ControlMode) {
    || mode.control in {POSITION, SPEED_IN_A_PLANE, TRAJECTORY, SPEED}
    || (mode.control == ATTITUDE && mode.yaw != YAW_ANGLE)
  }

  /** UNSET, HOVER and BODY_RATES need no frame; every other mode needs exactly these. */
  lemma FrameUsageSpec(mode: ControlMode)
    ensures FrameUsage(mode).pose <==> NeedsPose(mode)
    ensures FrameUsage(mode).twist <==> NeedsTwist(mode)
    ensures mode.control == UNSET || mode.control == HOVER || mode.control == BODY_RATES ==>
              !NeedsPose(mode) && !NeedsTwist(mode)
  {
  }

  method FindBestMatchWithMask(mode: bv8, list: seq<bv8>, mask: bv8, unmatched: bv8)
    returns (found: bool, best: bv8)
    ensures found <==> BestMatch(mode, list, mask).Some?
    ensures best == match BestMatch(mode, list, mask) { case Some(m) => m case None => unmatched }
  {
    found, best := false, unmatched;
    for i := 0 to |list|
      invariant mode !in list[..i]
      invariant FirstMatch(mode, list[..i], mask) == if found then Some(best) else None
      invariant !found ==> best == unmatched
    {
      var candidate := list[i];
      assert list[..i + 1] == list[..i] + [candidate];
      FirstMatchAppend(mode, list[..i], candidate, mask);
      if !CompareModes(mode, candidate, mask) {
        assert candidate != mode;
        continue;
      }
      if candidate == mode {
        return true, candidate;
      }
      if !found {
        found, best := true, candidate;
      }
    }
    assert list[..|list|] == list;
  }

  method FindLastMatchWithMask(mode: bv8, list: seq<bv8>, mask: bv8) returns (best: bv8)
    ensures best == LastMatch(mode, list, mask)
  {
    best := 0;
    for i := 0 to |list|
      invariant mode !in list[..i]
      invariant best == LastMatch(mode, list[..i], mask)
    {
      var candidate := list[i];
      assert list[..i + 1][..i] == list[..i];
      if CompareModes(mode, candidate, mask) {
        best := candidate;
        if candidate == mode {
          return candidate;
        }
      }
    }
    assert list[..|list|] == list;
  }

  method ResolveControlMode(request: ControlMode, available: seq<bv8>, unresolved: ControlMode)
    returns (found: bool, resolved: ControlMode)
    ensures found <==> Resolve(request, available).Some?
    ensures resolved == match Resolve(request, available) { case Some(m) => m case None => unresolved }
  {
    var mask := if request.control == HOVER then MATCH_CONTROL_MODE else MATCH_CONTROL_MODE | MATCH_YAW_MODE;
    var match_;
    found, match_ := FindBestMatchWithMask(Encode(request), available, mask, UNSET_MODE_MASK);
    resolved := if found then Decode(match_) else unresolved;
  }
}
