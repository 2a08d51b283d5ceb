/** Runs of units and packets through the format processors. */
module AccessUnitRuns {
  import opened Common
  import opened AccessUnitSpec
  import opened AccessUnitTypes
  import opened AccessUnits

  // What a processor has seen

  /** The last parameter set of a kind among all inputs, or the one that was there before. */
  function LastSeen(codec: Codec, kind: Kind, before: Option<Unit>, inputs: seq<Input>): Option<Unit> {
    if inputs == [] then before
    else OrElse(SeenIn(codec, kind, inputs[|inputs| - 1]), LastSeen(codec, kind, before, inputs[..|inputs| - 1]))
  }

  lemma LastSeenOneMore(codec: Codec, kind: Kind, before: Option<Unit>, inputs: seq<Input>, i: nat)
    requires i < |inputs|
    ensures LastSeen(codec, kind, before, inputs[..i + 1]) ==
            OrElse(SeenIn(codec, kind, inputs[i]), LastSeen(codec, kind, before, inputs[..i]))
  {
    assert inputs[..i + 1][..i] == inputs[..i];
  }

  /** What is put out for the last input: normalised with the parameter sets seen last, its own included. */
  function OutputH264(sps: Option<Unit>, pps: Option<Unit>, inputs: seq<Input>): Option<seq<Unit>>
    requires inputs != []
  {
    Remuxed(H264, [LastSeen(H264, SPS, sps, inputs), LastSeen(H264, PPS, pps, inputs)],
            AccessUnitOf(inputs[|inputs| - 1]))
  }

  lemma OutputOneMore(sps: Option<Unit>, pps: Option<Unit>, inputs: seq<Input>, i: nat)
    requires i < |inputs|
    ensures
      var newSPS := OrElse(SeenIn(H264, SPS, inputs[i]), LastSeen(H264, SPS, sps, inputs[..i]));
      var newPPS := OrElse(SeenIn(H264, PPS, inputs[i]), LastSeen(H264, PPS, pps, inputs[..i]));
      && LastSeen(H264, SPS, sps, inputs[..i + 1]) == newSPS && LastSeen(H264, PPS, pps, inputs[..i + 1]) == newPPS
      && OutputH264(sps, pps, inputs[..i + 1]) == Remuxed(H264, [newSPS, newPPS], AccessUnitOf(inputs[i]))
  {
    LastSeenOneMore(H264, SPS, sps, inputs, i);
    LastSeenOneMore(H264, PPS, pps, inputs, i);
  }

  function OutputsH264(sps: Option<Unit>, pps: Option<Unit>, inputs: seq<Input>): seq<Option<seq<Unit>>> {
    if inputs == [] then []
    else OutputsH264(sps, pps, inputs[..|inputs| - 1]) + [OutputH264(sps, pps, inputs)]
  }

  predicate IsParameter(kind: Kind) {
    kind == VPS || kind == SPS || kind == PPS
  }

  /** The units of which an input lets the parameter sets be seen: those of an aggregation packet are read as well. */
  function SeenUnits(codec: Codec, input: Input): seq<Unit> {
    match input
    case FromUnit(au) => au
    case FromPacket(payload, _) =>
      if |payload| < HeaderSize(codec) then []
      else if KindOf(codec, payload[0]) != Aggregation then [payload]
      else if Parse(payload[HeaderSize(codec)..]).Some? then Parse(payload[HeaderSize(codec)..]).value
      else []
  }

  function Stream(codec: Codec, inputs: seq<Input>): seq<Unit> {
    if inputs == [] then [] else Stream(codec, inputs[..|inputs| - 1]) + SeenUnits(codec, inputs[|inputs| - 1])
  }

  lemma SeenInIsLast(codec: Codec, kind: Kind, input: Input)
    requires IsParameter(kind)
    ensures SeenIn(codec, kind, input) == LastOf(codec, kind, SeenUnits(codec, input))
  {
    if input.FromPacket? && |input.payload| >= HeaderSize(codec) {
      LastOfOneMore(codec, kind, [], input.payload);
      assert [] + [input.payload] == [input.payload];
    }
  }

  /** Over any run of units and packets, the set seen last is the last one of the whole stream. */
  lemma {:induction false} LastSeenIsLast(codec: Codec, kind: Kind, before: Option<Unit>, inputs: seq<Input>)
    requires IsParameter(kind)
    ensures LastSeen(codec, kind, before, inputs) == OrElse(LastOf(codec, kind, Stream(codec, inputs)), before)
  {
    if inputs != [] {
      var n := |inputs| - 1;
      LastSeenIsLast(codec, kind, before, inputs[..n]);
      SeenInIsLast(codec, kind, inputs[n]);
      LastOfConcat(codec, kind, Stream(codec, inputs[..n]), SeenUnits(codec, inputs[n]));
    }
  }

  // Runs of H265

  function StoredH265(kind: Kind, before: Option<Unit>, inputs: seq<Input>): Option<Unit> {
    if inputs == [] then before
    else StoreH265(kind, StoredH265(kind, before, inputs[..|inputs| - 1]), inputs[|inputs| - 1])
  }

  /** The stored sets are VPS, SPS and PPS. */
  function AllStored(before: Params, inputs: seq<Input>): Params
    requires |before| == 3
  {
    [StoredH265(VPS, before[0], inputs), StoredH265(SPS, before[1], inputs), StoredH265(PPS, before[2], inputs)]
  }

  function OutputsH265(before: Params, inputs: seq<Input>): seq<Option<seq<Unit>>>
    requires |before| == 3
  {
    if inputs == [] then []
    else
      OutputsH265(before, inputs[..|inputs| - 1]) +
      [Remuxed(H265, AllStored(before, inputs), AccessUnitOf(inputs[|inputs| - 1]))]
  }

  lemma AllStoredOneMore(before: Params, inputs: seq<Input>, i: nat)
    requires |before| == 3 && i < |inputs|
    ensures var stored := AllStored(before, inputs[..i]);
      AllStored(before, inputs[..i + 1]) ==
      [StoreH265(VPS, stored[0], inputs[i]), StoreH265(SPS, stored[1], inputs[i]), StoreH265(PPS, stored[2], inputs[i])]
  {
    assert inputs[..i + 1][..i] == inputs[..i];
  }

  predicate OnlyOne(kind: Kind, au: seq<Unit>) {
    forall i, j :: 0 <= i < j < |au| && KindOf(H265, au[i][0]) == kind && KindOf(H265, au[j][0]) == kind ==>
      au[i] == au[j]
  }

  lemma {:induction false} LastOfIsOne(kind: Kind, au: seq<Unit>)
    requires LastOf(H265, kind, au).Some?
    ensures exists i :: 0 <= i < |au| && KindOf(H265, au[i][0]) == kind && au[i] == LastOf(H265, kind, au).value
  {
    if KindOf(H265, au[|au| - 1][0]) != kind {
      LastOfIsOne(kind, au[..|au| - 1]);
    }
  }

  /** An access unit after which the set stored is not the one seen last. */
  predicate Mistaken(kind: Kind, stored: Option<Unit>, input: Input) {
    && input.FromUnit?
    && LastOf(H265, kind, input.au).Some? && LastOf(H265, kind, input.au) == stored
    && HasOther(kind, stored, input.au)
  }

  lemma StoreIsSeenExactlyWhen(kind: Kind, stored: Option<Unit>, input: Input)
    ensures StoreH265(kind, stored, input) == OrElse(SeenIn(H265, kind, input), stored) <==>
            !Mistaken(kind, stored, input)
  {
    if input.FromUnit? {
      LastWinsExactlyWhen(kind, stored, input.au);
    }
  }

  /** As long as no access unit holds two different sets of a kind, H265 processors too store the set seen last. */
  lemma {:induction false} StoredIsLastSeen(kind: Kind, before: Option<Unit>, inputs: seq<Input>)
    requires forall i :: 0 <= i < |inputs| && inputs[i].FromUnit? ==> OnlyOne(kind, inputs[i].au)
    ensures StoredH265(kind, before, inputs) == LastSeen(H265, kind, before, inputs)
  {
    if inputs != [] {
      var n := |inputs| - 1;
      var stored := StoredH265(kind, before, inputs[..n]);
      StoredIsLastSeen(kind, before, inputs[..n]);
      StoreIsSeenExactlyWhen(kind, stored, inputs[n]);
      if inputs[n].FromUnit? && LastOf(H265, kind, inputs[n].au).Some? {
        LastOfIsOne(kind, inputs[n].au);
      }
    }
  }

  /** The last input that showed a set of the kind, if any did, was not a mistaken one. */
  predicate LastShownWasRight(kind: Kind, before: Option<Unit>, inputs: seq<Input>) {
    if inputs == [] then true
    else
      var n := |inputs| - 1;
      var stored := StoredH265(kind, before, inputs[..n]);
      if SeenIn(H265, kind, inputs[n]).Some? then !Mistaken(kind, stored, inputs[n])
      else LastShownWasRight(kind, before, inputs[..n])
  }

  /**
   * Over any run, H265 processors store the set seen last if and only if the last input that showed one was not an
   * access unit ending with the set stored before and holding another one.
   */
  lemma {:induction false} StoredIsLastSeenExactlyWhen(kind: Kind, before: Option<Unit>, inputs: seq<Input>)
    ensures StoredH265(kind, before, inputs) == LastSeen(H265, kind, before, inputs) <==>
            LastShownWasRight(kind, before, inputs)
  {
    if inputs != [] {
      var n := |inputs| - 1;
      var stored := StoredH265(kind, before, inputs[..n]);
      StoredIsLastSeenExactlyWhen(kind, before, inputs[..n]);
      StoreIsSeenExactlyWhen(kind, stored, inputs[n]);
      if SeenIn(H265, kind, inputs[n]).None? && inputs[n].FromUnit? {
        NoneSeenNoneOther(kind, stored, inputs[n].au);
      }
    }
  }

  lemma NoneSeenNoneOther(kind: Kind, stored: Option<Unit>, au: seq<Unit>)
    requires LastOf(H265, kind, au).None?
    ensures OrElse(LastOther(kind, stored, au), stored) == stored
  {
    LastOtherIsOther(kind, stored, au);
  }

  // By the numbers of types

  /** The units shown by an input. */
  function Shown(codec: Codec, input: Input): seq<Unit> {
    match input
    case FromUnit(au) => au
    case FromPacket(payload, _) => Opened(codec, payload)
  }

  function AllShown(codec: Codec, inputs: seq<Input>): seq<Unit> {
    if inputs == [] then [] else AllShown(codec, inputs[..|inputs| - 1]) + Shown(codec, inputs[|inputs| - 1])
  }

  lemma SeenUnitsAreShown(codec: Codec, input: Input)
    ensures SeenUnits(codec, input) == Shown(codec, input)
  {
    if input.FromPacket? && |input.payload| >= HeaderSize(codec) {
      KindsHaveTypes(codec, input.payload);
    }
  }

  lemma {:induction false} StreamIsShown(codec: Codec, inputs: seq<Input>)
    ensures Stream(codec, inputs) == AllShown(codec, inputs)
  {
    if inputs != [] {
      StreamIsShown(codec, inputs[..|inputs| - 1]);
      SeenUnitsAreShown(codec, inputs[|inputs| - 1]);
    }
  }

  /** The set of type `SetTypes(codec)[k]` that the whole stream shows last. */
  function ShownLast(codec: Codec, k: nat, before: Option<Unit>, inputs: seq<Input>): Option<Unit>
    requires k < |SetTypes(codec)|
  {
    OrElse(LastOfType(codec, SetTypes(codec)[k], AllShown(codec, inputs)), before)
  }

  lemma LastSeenIsShownLast(codec: Codec, k: nat, before: Option<Unit>, inputs: seq<Input>)
    requires k < |SetTypes(codec)|
    ensures LastSeen(codec, SetKinds(codec)[k], before, inputs) == ShownLast(codec, k, before, inputs)
  {
    LastSeenIsLast(codec, SetKinds(codec)[k], before, inputs);
    StreamIsShown(codec, inputs);
    LastOfIsLastOfType(codec, k, AllShown(codec, inputs));
  }

  lemma {:induction false} OneOutputEach(sps: Option<Unit>, pps: Option<Unit>, inputs: seq<Input>)
    ensures |OutputsH264(sps, pps, inputs)| == |inputs|
  {
    if inputs != [] { OneOutputEach(sps, pps, inputs[..|inputs| - 1]); }
  }

  lemma OutputsOneMore(sps: Option<Unit>, pps: Option<Unit>, inputs: seq<Input>)
    requires inputs != []
    ensures OutputsH264(sps, pps, inputs) ==
            OutputsH264(sps, pps, inputs[..|inputs| - 1]) + [OutputH264(sps, pps, inputs)]
  {
  }

  lemma {:induction false} OutputsAt(sps: Option<Unit>, pps: Option<Unit>, inputs: seq<Input>, n: nat, i: nat)
    requires i < n <= |inputs|
    ensures |OutputsH264(sps, pps, inputs[..n])| == n
    ensures OutputsH264(sps, pps, inputs[..n])[i] == OutputH264(sps, pps, inputs[..i + 1])
  {
    var front := inputs[..n];
    OneOutputEach(sps, pps, front);
    OneOutputEach(sps, pps, inputs[..n - 1]);
    assert front[..|front| - 1] == inputs[..n - 1];
    OutputsOneMore(sps, pps, front);
    if i < n - 1 { OutputsAt(sps, pps, inputs, n - 1, i); }
  }

  /** The access unit of an input, normalised with what the stream has shown last by then of types 7 and 8. */
  function NormalOutputH264(sps: Option<Unit>, pps: Option<Unit>, inputs: seq<Input>, i: nat): Option<seq<Unit>>
    requires i < |inputs|
  {
    var seen := inputs[..i + 1];
    Normalised(H264, [ShownLast(H264, 0, sps, seen), ShownLast(H264, 1, pps, seen)], AccessUnitOf(inputs[i]))
  }

  /**
   * Over any run of units and packets, an H264 processor puts out each access unit normalised with the last unit of
   * type 7 and the last of type 8 that the stream has shown by then.
   */
  lemma OutputsAreNormalised(sps: Option<Unit>, pps: Option<Unit>, inputs: seq<Input>, i: nat)
    requires i < |inputs|
    ensures |OutputsH264(sps, pps, inputs)| == |inputs|
    ensures OutputsH264(sps, pps, inputs)[i] == NormalOutputH264(sps, pps, inputs, i)
  {
    var seen := inputs[..i + 1];
    OutputsAt(sps, pps, inputs, |inputs|, i);
    assert inputs[..|inputs|] == inputs;
    LastSeenIsShownLast(H264, 0, sps, seen);
    LastSeenIsShownLast(H264, 1, pps, seen);
    RemuxedIsNormalised(
      H264, [ShownLast(H264, 0, sps, seen), ShownLast(H264, 1, pps, seen)], AccessUnitOf(inputs[i]));
  }

  /** What is stored of type 32, 33 or 34: access units are compared with what was stored before them. */
  function Stored(k: nat, before: Option<Unit>, inputs: seq<Input>): Option<Unit>
    requires k < 3
  {
    if inputs == [] then before
    else
      var n := |inputs| - 1;
      var stored := Stored(k, before, inputs[..n]);
      match inputs[n]
      case FromUnit(au) => OrElse(LastOtherOfType(SetTypes(H265)[k], stored, au), stored)
      case FromPacket(_, _) => OrElse(LastOfType(H265, SetTypes(H265)[k], Shown(H265, inputs[n])), stored)
  }

  lemma {:induction false} StoredIsOfType(k: nat, before: Option<Unit>, inputs: seq<Input>)
    requires k < 3
    ensures StoredH265(SetKinds(H265)[k], before, inputs) == Stored(k, before, inputs)
  {
    if inputs != [] {
      var n := |inputs| - 1;
      StoredIsOfType(k, before, inputs[..n]);
      match inputs[n] {
        case FromUnit(au) => LastOtherIsOfType(k, Stored(k, before, inputs[..n]), au);
        case FromPacket(_, _) =>
          SeenInIsLast(H265, SetKinds(H265)[k], inputs[n]);
          SeenUnitsAreShown(H265, inputs[n]);
          LastOfIsLastOfType(H265, k, Shown(H265, inputs[n]));
      }
    }
  }

  function OutputH265(before: Params, inputs: seq<Input>): Option<seq<Unit>>
    requires |before| == 3 && inputs != []
  {
    Remuxed(H265, AllStored(before, inputs), AccessUnitOf(inputs[|inputs| - 1]))
  }

  lemma {:induction false} OneOutputEachH265(before: Params, inputs: seq<Input>)
    requires |before| == 3
    ensures |OutputsH265(before, inputs)| == |inputs|
  {
    if inputs != [] { OneOutputEachH265(before, inputs[..|inputs| - 1]); }
  }

  lemma OutputsH265OneMore(before: Params, inputs: seq<Input>)
    requires |before| == 3 && inputs != []
    ensures OutputsH265(before, inputs) ==
            OutputsH265(before, inputs[..|inputs| - 1]) + [OutputH265(before, inputs)]
  {
  }

  lemma {:induction false} OutputsH265At(before: Params, inputs: seq<Input>, n: nat, i: nat)
    requires |before| == 3 && i < n <= |inputs|
    ensures |OutputsH265(before, inputs[..n])| == n
    ensures OutputsH265(before, inputs[..n])[i] == OutputH265(before, inputs[..i + 1])
  {
    var front := inputs[..n];
    OneOutputEachH265(before, front);
    OneOutputEachH265(before, inputs[..n - 1]);
    assert front[..|front| - 1] == inputs[..n - 1];
    OutputsH265OneMore(before, front);
    if i < n - 1 { OutputsH265At(before, inputs, n - 1, i); }
  }

  /** The access unit of an input, normalised with what is stored by then of types 32, 33 and 34. */
  function NormalOutputH265(before: Params, inputs: seq<Input>, i: nat): Option<seq<Unit>>
    requires |before| == 3 && i < |inputs|
  {
    var seen := inputs[..i + 1];
    Normalised(H265, [Stored(0, before[0], seen), Stored(1, before[1], seen), Stored(2, before[2], seen)],
               AccessUnitOf(inputs[i]))
  }

  /** Over any run, an H265 processor puts out each access unit normalised with the sets it stores by then. */
  lemma OutputsH265AreNormalised(before: Params, inputs: seq<Input>, i: nat)
    requires |before| == 3 && i < |inputs|
    ensures |OutputsH265(before, inputs)| == |inputs|
    ensures OutputsH265(before, inputs)[i] == NormalOutputH265(before, inputs, i)
  {
    OutputsH265At(before, inputs, |inputs|, i);
    assert inputs[..|inputs|] == inputs;
    forall k: nat | k < 3 ensures StoredH265(SetKinds(H265)[k], before[k], inputs[..i + 1]) ==
                                  Stored(k, before[k], inputs[..i + 1])
    {
      StoredIsOfType(k, before[k], inputs[..i + 1]);
    }
    RemuxedIsNormalised(H265, AllStored(before, inputs[..i + 1]), AccessUnitOf(inputs[i]));
  }

  method RunH264(sps: Option<Unit>, pps: Option<Unit>, inputs: seq<Input>) returns (outputs: seq<Option<seq<Unit>>>)
    ensures outputs == OutputsH264(sps, pps, inputs) && |outputs| == |inputs|
    ensures forall i :: 0 <= i < |inputs| ==> outputs[i] == NormalOutputH264(sps, pps, inputs, i)
  {
    var p := new ProcessorH264(sps, pps);
    outputs := [];
    for i := 0 to |inputs|
      invariant fresh(p) && outputs == OutputsH264(sps, pps, inputs[..i])
      invariant p.sps == LastSeen(H264, SPS, sps, inputs[..i]) && p.pps == LastSeen(H264, PPS, pps, inputs[..i])
    {
      var r := p.Process(inputs[i]);
      OutputOneMore(sps, pps, inputs, i);
      assert inputs[..i + 1][..i] == inputs[..i];
      outputs := outputs + [r];
    }
    assert inputs[..|inputs|] == inputs;
    OneOutputEach(sps, pps, inputs);
    forall i | 0 <= i < |inputs| ensures outputs[i] == NormalOutputH264(sps, pps, inputs, i) {
      OutputsAreNormalised(sps, pps, inputs, i);
    }
  }

  method RunH265(before: Params, inputs: seq<Input>) returns (outputs: seq<Option<seq<Unit>>>)
    requires |before| == 3
    ensures outputs == OutputsH265(before, inputs) && |outputs| == |inputs|
    ensures forall i :: 0 <= i < |inputs| ==> outputs[i] == NormalOutputH265(before, inputs, i)
  {
    var p := new ProcessorH265(before[0], before[1], before[2]);
    outputs := [];
    assert before == [before[0], before[1], before[2]];
    for i := 0 to |inputs|
      invariant fresh(p) && outputs == OutputsH265(before, inputs[..i])
      invariant [p.vps, p.sps, p.pps] == AllStored(before, inputs[..i])
    {
      ghost var stored := AllStored(before, inputs[..i]);
      assert p.vps == stored[0] && p.sps == stored[1] && p.pps == stored[2];
      AllStoredOneMore(before, inputs, i);
      var r := p.Process(inputs[i]);
      assert inputs[..i + 1][..i] == inputs[..i];
      outputs := outputs + [r];
    }
    assert inputs[..|inputs|] == inputs;
    OneOutputEachH265(before, inputs);
    forall i | 0 <= i < |inputs| ensures outputs[i] == NormalOutputH265(before, inputs, i) {
      OutputsH265AreNormalised(before, inputs, i);
    }
  }

  /**
   * In what an H264 processor puts out, an access unit with a unit of type 5 is preceded by the last SPS and the last
   * PPS that the stream has shown, and the unit of type 5 is there.
   */
  lemma KeyFramesAreDecodable(sps: Option<Unit>, pps: Option<Unit>, inputs: seq<Input>, i: nat, j: nat)
    requires i < |inputs| && j < |AccessUnitOf(inputs[i])| && AccessUnitOf(inputs[i])[j][0] % 32 == 5
    requires ShownLast(H264, 0, sps, inputs[..i + 1]).Some? && ShownLast(H264, 1, pps, inputs[..i + 1]).Some?
    ensures
      var seen, out := inputs[..i + 1], NormalOutputH264(sps, pps, inputs, i);
      && out.Some? && |out.value| > 2
      && out.value[0] == ShownLast(H264, 0, sps, seen).value && out.value[1] == ShownLast(H264, 1, pps, seen).value
      && AccessUnitOf(inputs[i])[j] in out.value[2..]
      && forall u <- out.value[2..] :: u in AccessUnitOf(inputs[i]) && u[0] % 32 !in {7, 8, 9}
  {
    var au := AccessUnitOf(inputs[i]);
    assert StartsKeyFrame(H264, TypeOf(H264, au[j]));
    assert NormalOutputH264(sps, pps, inputs, i).value[2..] == Kept(H264, au);
    forall u: Unit ensures u in Kept(H264, au) <==> u in au && IsKept(H264, TypeOf(H264, u)) { KeptHas(H264, au, u); }
  }

  /** The same for H265 with the sets that are stored, and units of types 19 to 21. */
  lemma KeyFramesAreDecodableH265(before: Params, inputs: seq<Input>, i: nat, j: nat)
    requires |before| == 3 && i < |inputs| && j < |AccessUnitOf(inputs[i])|
    requires 19 <= AccessUnitOf(inputs[i])[j][0] / 2 % 64 <= 21
    requires forall k: nat :: k < 3 ==> Stored(k, before[k], inputs[..i + 1]).Some?
    ensures
      var seen, out := inputs[..i + 1], NormalOutputH265(before, inputs, i);
      && out.Some? && |out.value| > 3
      && (forall k: nat :: k < 3 ==> out.value[k] == Stored(k, before[k], seen).value)
      && AccessUnitOf(inputs[i])[j] in out.value[3..]
      && forall u <- out.value[3..] :: u in AccessUnitOf(inputs[i]) && !(32 <= u[0] / 2 % 64 <= 35)
  {
    var au := AccessUnitOf(inputs[i]);
    assert StartsKeyFrame(H265, TypeOf(H265, au[j]));
    assert NormalOutputH265(before, inputs, i).value[3..] == Kept(H265, au);
    forall u: Unit ensures u in Kept(H265, au) <==> u in au && IsKept(H265, TypeOf(H265, u)) { KeptHas(H265, au, u); }
  }
}
