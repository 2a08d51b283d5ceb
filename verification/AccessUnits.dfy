/** The format processors as objects: formatProcessorH264 and formatProcessorH265. */
module AccessUnits {
  import opened Common
  import opened AccessUnitSpec
  import opened AccessUnitTypes

  // Parsing payloads

  /** `rtpH264ExtractParams` */
  method ExtractH264(payload: seq<Byte>) returns (sps: Option<Unit>, pps: Option<Unit>)
    ensures sps == OfPayload(H264, SPS, payload) && pps == OfPayload(H264, PPS, payload)
  {
    if |payload| < 1 {
      return None, None;
    }
    match KindOf(H264, payload[0])
    case SPS => return Some(payload), None;
    case PPS => return None, Some(payload);
    case Aggregation =>
      var rest := payload[1..];
      ghost var units: seq<Unit> := [];
      PrependNothing(Parse(rest));
      sps, pps := None, None;
      while |rest| > 0
        invariant Parse(payload[1..]) == Prepended(units, Parse(rest))
        invariant sps == LastOf(H264, SPS, units) && pps == LastOf(H264, PPS, units)
      {
        if |rest| < 2 {
          break;
        }
        var size := SizeIn(rest);
        ghost var before := rest;
        rest := rest[2..];
        if size == 0 {
          break;
        }
        if size > |rest| {
          return None, None;
        }
        var nalu: Unit := rest[..size];
        rest := rest[size..];
        ParseNext(before, nalu, rest, units, Parse(payload[1..]));
        LastOfOneMore(H264, SPS, units, nalu);
        LastOfOneMore(H264, PPS, units, nalu);
        units := units + [nalu];
        match KindOf(H264, nalu[0])
        case SPS => sps := Some(nalu);
        case PPS => pps := Some(nalu);
        case _ =>
      }
      assert units + [] == units;
    case _ => return None, None;
  }

  lemma PrependNothing(rest: Option<seq<Unit>>)
    ensures Prepended([], rest) == rest
  {
    if rest.Some? {
      assert [] + rest.value == rest.value;
    }
  }

  /** One turn of the parser's loop. */
  lemma ParseNext(before: seq<Byte>, nalu: Unit, rest: seq<Byte>, units: seq<Unit>, whole: Option<seq<Unit>>)
    requires |before| >= 2 && 0 < SizeIn(before) <= |before| - 2
    requires nalu == before[2..][..SizeIn(before)] && rest == before[2..][SizeIn(before)..]
    requires whole == Prepended(units, Parse(before))
    ensures whole == Prepended(units + [nalu], Parse(rest))
  {
    if Parse(rest).Some? {
      assert units + ([nalu] + Parse(rest).value) == units + [nalu] + Parse(rest).value;
    }
  }

  lemma LastOfOneMore(codec: Codec, kind: Kind, units: seq<Unit>, u: Unit)
    ensures LastOf(codec, kind, units + [u]) ==
            if KindOf(codec, u[0]) == kind then Some(u) else LastOf(codec, kind, units)
  {
    assert (units + [u])[..|units|] == units;
  }

  /** `rtpH265ExtractParams` */
  method ExtractH265(payload: seq<Byte>) returns (vps: Option<Unit>, sps: Option<Unit>, pps: Option<Unit>)
    ensures vps == OfPayload(H265, VPS, payload)
    ensures sps == OfPayload(H265, SPS, payload) && pps == OfPayload(H265, PPS, payload)
  {
    if |payload| < 2 {
      return None, None, None;
    }
    match KindOf(H265, payload[0])
    case VPS => return Some(payload), None, None;
    case SPS => return None, Some(payload), None;
    case PPS => return None, None, Some(payload);
    case Aggregation =>
      var rest := payload[2..];
      ghost var units: seq<Unit> := [];
      PrependNothing(Parse(rest));
      vps, sps, pps := None, None, None;
      while |rest| > 0
        invariant Parse(payload[2..]) == Prepended(units, Parse(rest))
        invariant vps == LastOf(H265, VPS, units)
        invariant sps == LastOf(H265, SPS, units) && pps == LastOf(H265, PPS, units)
      {
        if |rest| < 2 {
          break;
        }
        var size := SizeIn(rest);
        ghost var before := rest;
        rest := rest[2..];
        if size == 0 {
          break;
        }
        if size > |rest| {
          return None, None, None;
        }
        var nalu: Unit := rest[..size];
        rest := rest[size..];
        ParseNext(before, nalu, rest, units, Parse(payload[2..]));
        LastOfOneMore(H265, VPS, units, nalu);
        LastOfOneMore(H265, SPS, units, nalu);
        LastOfOneMore(H265, PPS, units, nalu);
        units := units + [nalu];
        match KindOf(H265, nalu[0])
        case VPS => vps := Some(nalu);
        case SPS => sps := Some(nalu);
        case PPS => pps := Some(nalu);
        case _ =>
      }
      assert units + [] == units;
    case _ => return None, None, None;
  }

  // Filling the normalised access unit

  lemma FilteredOneMore(codec: Codec, au: seq<Unit>, i: nat)
    requires i < |au|
    ensures Filtered(codec, au[..i + 1]) ==
            Filtered(codec, au[..i]) + if Stays(KindOf(codec, au[i][0])) then [au[i]] else []
    ensures HasKey(codec, au[..i + 1]) <==> HasKey(codec, au[..i]) || KindOf(codec, au[i][0]) == Key
  {
    assert au[..i + 1][..i] == au[..i];
    var all := au[..i + 1];
    if HasKey(codec, au[..i]) {
      var j :| 0 <= j < i && KindOf(codec, au[..i][j][0]) == Key;
      assert KindOf(codec, all[j][0]) == Key;
    }
    if KindOf(codec, au[i][0]) == Key {
      assert KindOf(codec, all[i][0]) == Key;
    }
    if HasKey(codec, all) {
      var j :| 0 <= j < |all| && KindOf(codec, all[j][0]) == Key;
      assert j < i ==> KindOf(codec, au[..i][j][0]) == Key;
    }
  }

  lemma {:induction false} FilteredGrows(codec: Codec, au: seq<Unit>, i: nat)
    requires i <= |au|
    ensures Filtered(codec, au[..i]) <= Filtered(codec, au)
    decreases |au| - i
  {
    if i == |au| {
      assert au[..i] == au;
    } else {
      FilteredOneMore(codec, au, i);
      FilteredGrows(codec, au, i + 1);
    }
  }

  /** Parameter sets and delimiters are removed from every access unit. */
  predicate IsRemoved(kind: Kind) {
    kind == VPS || kind == SPS || kind == PPS || kind == Delimiter
  }

  /** The first pass of `remuxAccessUnit` counts the units to output. */
  method CountUnits(codec: Codec, stored: Params, au: seq<Unit>) returns (isKeyFrame: bool, n: nat)
    ensures isKeyFrame <==> HasKey(codec, au)
    ensures n == |Prefix(codec, stored, au)| + |Filtered(codec, au)|
    ensures isKeyFrame <==> IsKeyFrame(codec, au)
    ensures n == (if IsKeyFrame(codec, au) && Known(stored) then |stored| else 0) + |Kept(codec, au)|
  {
    KeyIsKeyFrame(codec, au);
    FilteredIsKept(codec, au);
    isKeyFrame, n := false, 0;
    for i := 0 to |au|
      invariant isKeyFrame <==> HasKey(codec, au[..i])
      invariant n == (if isKeyFrame && Known(stored) then |stored| else 0) + |Filtered(codec, au[..i])|
    {
      FilteredOneMore(codec, au, i);
      var kind := KindOf(codec, au[i][0]);
      if IsRemoved(kind) {
        continue;
      }
      if kind == Key && !isKeyFrame {
        isKeyFrame := true;
        if Known(stored) {
          n := n + |stored|;
        }
      }
      n := n + 1;
    }
    assert au[..|au|] == au;
  }

  /** The second pass fills the slots after the parameters: none is left empty, and there is room for every unit. */
  method FillUnits(codec: Codec, filtered: array<seq<Byte>>, from: nat, au: seq<Unit>)
    requires from + |Filtered(codec, au)| == filtered.Length
    modifies filtered
    ensures filtered[..] == old(filtered[..from]) + Filtered(codec, au)
    ensures filtered[..] == old(filtered[..from]) + Kept(codec, au)
  {
    FilteredIsKept(codec, au);
    var i := from;
    for j := 0 to |au|
      invariant i == from + |Filtered(codec, au[..j])| <= filtered.Length
      invariant filtered[..i] == old(filtered[..from]) + Filtered(codec, au[..j])
    {
      FilteredOneMore(codec, au, j);
      FilteredGrows(codec, au, j + 1);
      if IsRemoved(KindOf(codec, au[j][0])) {
        continue;
      }
      filtered[i] := au[j];
      assert filtered[..i + 1] == filtered[..i] + [au[j]];
      i := i + 1;
    }
    assert au[..|au|] == au;
  }

  /** `remuxAccessUnit` */
  method RemuxAccessUnit(codec: Codec, stored: Params, au: seq<Unit>) returns (r: Option<seq<Unit>>)
    ensures r == Remuxed(codec, stored, au)
    ensures r == Normalised(codec, stored, au)
  {
    RemuxedIsNormalised(codec, stored, au);
    var isKeyFrame, n := CountUnits(codec, stored, au);
    ghost var prefix := Prefix(codec, stored, au);
    if n == 0 {
      return None;
    }
    var filtered := new seq<Byte>[n];
    var i := 0;
    if isKeyFrame && Known(stored) {
      for k := 0 to |stored|
        invariant forall m :: 0 <= m < k ==> filtered[m] == Values(stored)[m]
      {
        filtered[k] := stored[k].value;
      }
      i := |stored|;
    }
    assert filtered[..i] == prefix;
    FillUnits(codec, filtered, i, au);
    return Some(filtered[..]);
  }

  // Inputs

  /** What a processor is given: an access unit, or an RTP packet with the access unit that it completes, if any. */
  datatype Input = FromUnit(au: seq<Unit>) | FromPacket(payload: seq<Byte>, decoded: Option<seq<Unit>>)

  function SeenIn(codec: Codec, kind: Kind, input: Input): Option<Unit> {
    match input
    case FromUnit(au) => LastOf(codec, kind, au)
    case FromPacket(payload, _) => OfPayload(codec, kind, payload)
  }

  function AccessUnitOf(input: Input): seq<Unit> {
    match input
    case FromUnit(au) => au
    case FromPacket(_, decoded) => if decoded.Some? then decoded.value else []
  }

  /** What an H265 processor stores after one more input. */
  function StoreH265(kind: Kind, stored: Option<Unit>, input: Input): Option<Unit> {
    match input
    case FromUnit(au) => OrElse(LastOther(kind, stored, au), stored)
    case FromPacket(payload, _) => OrElse(OfPayload(H265, kind, payload), stored)
  }

  class ProcessorH264 {
    var sps: Option<Unit>
    var pps: Option<Unit>

    constructor (sps: Option<Unit>, pps: Option<Unit>)
      ensures this.sps == sps && this.pps == pps
    {
      this.sps, this.pps := sps, pps;
    }

    method UpdateFromRTPPacket(payload: seq<Byte>)
      modifies this
      ensures sps == OrElse(OfPayload(H264, SPS, payload), old(sps))
      ensures pps == OrElse(OfPayload(H264, PPS, payload), old(pps))
      ensures sps == OrElse(LastOfType(H264, 7, Opened(H264, payload)), old(sps))
      ensures pps == OrElse(LastOfType(H264, 8, Opened(H264, payload)), old(pps))
    {
      OfPayloadIsLast(H264, 0, payload);
      OfPayloadIsLast(H264, 1, payload);
      var newSPS, newPPS := ExtractH264(payload);
      if (newSPS.Some? && newSPS != sps) || (newPPS.Some? && newPPS != pps) {
        if newSPS.None? {
          newSPS := sps;
        }
        if newPPS.None? {
          newPPS := pps;
        }
        sps, pps := newSPS, newPPS;
      }
    }

    method UpdateFromAU(au: seq<Unit>)
      modifies this
      ensures sps == OrElse(LastOf(H264, SPS, au), old(sps)) && pps == OrElse(LastOf(H264, PPS, au), old(pps))
      ensures sps == OrElse(LastOfType(H264, 7, au), old(sps)) && pps == OrElse(LastOfType(H264, 8, au), old(pps))
    {
      LastOfIsLastOfType(H264, 0, au);
      LastOfIsLastOfType(H264, 1, au);
      var newSPS, newPPS, update := sps, pps, false;
      for i := 0 to |au|
        invariant sps == old(sps) && pps == old(pps)
        invariant newSPS == OrElse(LastOf(H264, SPS, au[..i]), sps) && newPPS == OrElse(LastOf(H264, PPS, au[..i]), pps)
        invariant !update ==> newSPS == sps && newPPS == pps
      {
        assert au[..i + 1] == au[..i] + [au[i]];
        LastOfOneMore(H264, SPS, au[..i], au[i]);
        LastOfOneMore(H264, PPS, au[..i], au[i]);
        match KindOf(H264, au[i][0])
        case SPS =>
          if Some(au[i]) != newSPS {
            newSPS, update := Some(au[i]), true;
          }
        case PPS =>
          if Some(au[i]) != newPPS {
            newPPS, update := Some(au[i]), true;
          }
        case _ =>
      }
      assert au[..|au|] == au;
      if update {
        sps, pps := newSPS, newPPS;
      }
    }

    method ProcessUnit(au: seq<Unit>) returns (r: Option<seq<Unit>>)
      modifies this
      ensures sps == OrElse(LastOf(H264, SPS, au), old(sps)) && pps == OrElse(LastOf(H264, PPS, au), old(pps))
      ensures r == Remuxed(H264, [sps, pps], au) == Normalised(H264, [sps, pps], au)
    {
      UpdateFromAU(au);
      r := RemuxAccessUnit(H264, [sps, pps], au);
    }

    /** `decoded` is the access unit that the packet completes, if any. */
    method ProcessRTPPacket(payload: seq<Byte>, decoded: Option<seq<Unit>>) returns (r: Option<seq<Unit>>)
      modifies this
      ensures sps == OrElse(OfPayload(H264, SPS, payload), old(sps))
      ensures pps == OrElse(OfPayload(H264, PPS, payload), old(pps))
      ensures r == if decoded.None? then None else Remuxed(H264, [sps, pps], decoded.value)
      ensures r == if decoded.None? then None else Normalised(H264, [sps, pps], decoded.value)
    {
      UpdateFromRTPPacket(payload);
      if decoded.None? {
        return None;
      }
      r := RemuxAccessUnit(H264, [sps, pps], decoded.value);
    }

    method Process(input: Input) returns (r: Option<seq<Unit>>)
      modifies this
      ensures sps == OrElse(SeenIn(H264, SPS, input), old(sps)) && pps == OrElse(SeenIn(H264, PPS, input), old(pps))
      ensures r == Remuxed(H264, [sps, pps], AccessUnitOf(input))
    {
      match input
      case FromUnit(au) => r := ProcessUnit(au);
      case FromPacket(payload, decoded) => r := ProcessRTPPacket(payload, decoded);
    }
  }

  class ProcessorH265 {
    var vps: Option<Unit>
    var sps: Option<Unit>
    var pps: Option<Unit>

    constructor (vps: Option<Unit>, sps: Option<Unit>, pps: Option<Unit>)
      ensures this.vps == vps && this.sps == sps && this.pps == pps
    {
      this.vps, this.sps, this.pps := vps, sps, pps;
    }

    method UpdateFromRTPPacket(payload: seq<Byte>)
      modifies this
      ensures vps == OrElse(OfPayload(H265, VPS, payload), old(vps))
      ensures sps == OrElse(OfPayload(H265, SPS, payload), old(sps))
      ensures pps == OrElse(OfPayload(H265, PPS, payload), old(pps))
      ensures vps == OrElse(LastOfType(H265, 32, Opened(H265, payload)), old(vps))
      ensures sps == OrElse(LastOfType(H265, 33, Opened(H265, payload)), old(sps))
      ensures pps == OrElse(LastOfType(H265, 34, Opened(H265, payload)), old(pps))
    {
      OfPayloadIsLast(H265, 0, payload);
      OfPayloadIsLast(H265, 1, payload);
      OfPayloadIsLast(H265, 2, payload);
      var newVPS, newSPS, newPPS := ExtractH265(payload);
      if (newVPS.Some? && newVPS != vps) || (newSPS.Some? && newSPS != sps) || (newPPS.Some? && newPPS != pps) {
        if newVPS.None? {
          newVPS := vps;
        }
        if newSPS.None? {
          newSPS := sps;
        }
        if newPPS.None? {
          newPPS := pps;
        }
        vps, sps, pps := newVPS, newSPS, newPPS;
      }
    }

    /** Units are compared with the stored sets, not with those found earlier in the same access unit. */
    method UpdateFromAU(au: seq<Unit>)
      modifies this
      ensures vps == OrElse(LastOther(VPS, old(vps), au), old(vps))
      ensures sps == OrElse(LastOther(SPS, old(sps), au), old(sps))
      ensures pps == OrElse(LastOther(PPS, old(pps), au), old(pps))
      ensures vps == OrElse(LastOtherOfType(32, old(vps), au), old(vps))
      ensures sps == OrElse(LastOtherOfType(33, old(sps), au), old(sps))
      ensures pps == OrElse(LastOtherOfType(34, old(pps), au), old(pps))
    {
      LastOtherIsOfType(0, vps, au);
      LastOtherIsOfType(1, sps, au);
      LastOtherIsOfType(2, pps, au);
      var newVPS, newSPS, newPPS, update := vps, sps, pps, false;
      for i := 0 to |au|
        invariant newVPS == OrElse(LastOther(VPS, vps, au[..i]), vps)
        invariant newSPS == OrElse(LastOther(SPS, sps, au[..i]), sps)
        invariant newPPS == OrElse(LastOther(PPS, pps, au[..i]), pps)
        invariant !update ==> newVPS == vps && newSPS == sps && newPPS == pps
      {
        assert au[..i + 1][..i] == au[..i];
        match KindOf(H265, au[i][0])
        case VPS =>
          if Some(au[i]) != vps {
            newVPS, update := Some(au[i]), true;
          }
        case SPS =>
          if Some(au[i]) != sps {
            newSPS, update := Some(au[i]), true;
          }
        case PPS =>
          if Some(au[i]) != pps {
            newPPS, update := Some(au[i]), true;
          }
        case _ =>
      }
      assert au[..|au|] == au;
      if update {
        vps, sps, pps := newVPS, newSPS, newPPS;
      }
    }

    method ProcessUnit(au: seq<Unit>) returns (r: Option<seq<Unit>>)
      modifies this
      ensures vps == OrElse(LastOther(VPS, old(vps), au), old(vps))
      ensures sps == OrElse(LastOther(SPS, old(sps), au), old(sps))
      ensures pps == OrElse(LastOther(PPS, old(pps), au), old(pps))
      ensures r == Remuxed(H265, [vps, sps, pps], au) == Normalised(H265, [vps, sps, pps], au)
    {
      UpdateFromAU(au);
      r := RemuxAccessUnit(H265, [vps, sps, pps], au);
    }

    /** `decoded` is the access unit that the packet completes, if any. */
    method ProcessRTPPacket(payload: seq<Byte>, decoded: Option<seq<Unit>>) returns (r: Option<seq<Unit>>)
      modifies this
      ensures vps == OrElse(OfPayload(H265, VPS, payload), old(vps))
      ensures sps == OrElse(OfPayload(H265, SPS, payload), old(sps))
      ensures pps == OrElse(OfPayload(H265, PPS, payload), old(pps))
      ensures r == if decoded.None? then None else Remuxed(H265, [vps, sps, pps], decoded.value)
      ensures r == if decoded.None? then None else Normalised(H265, [vps, sps, pps], decoded.value)
    {
      UpdateFromRTPPacket(payload);
      if decoded.None? {
        return None;
      }
      r := RemuxAccessUnit(H265, [vps, sps, pps], decoded.value);
    }

    method Process(input: Input) returns (r: Option<seq<Unit>>)
      modifies this
      ensures vps == StoreH265(VPS, old(vps), input)
      ensures sps == StoreH265(SPS, old(sps), input) && pps == StoreH265(PPS, old(pps), input)
      ensures r == Remuxed(H265, [vps, sps, pps], AccessUnitOf(input))
    {
      match input
      case FromUnit(au) => r := ProcessUnit(au);
      case FromPacket(payload, decoded) => r := ProcessRTPPacket(payload, decoded);
    }
  }
}
