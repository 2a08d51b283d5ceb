/**
 * What the processors do with each type of NAL unit, by the numbers of table 7-1 of ITU-T H.264, table 7-1 of ITU-T
 * H.265, section 5.7.1 of RFC 6184 and section 4.4.2 of RFC 7798.
 */
module AccessUnitTypes {
  import opened Common
  import opened AccessUnitSpec

  /** The type of a NAL unit is in the low five bits of its first byte, in H265 in the middle six. */
  function TypeOf(codec: Codec, u: seq<Byte>): nat
    requires u != []
  {
    var first: nat := u[0];
    if codec.H264? then first % 32 else first / 2 % 64
  }

  /** IDR pictures; in H265 also those with leading pictures, and clean random access. */
  predicate StartsKeyFrame(codec: Codec, typ: nat) {
    if codec.H264? then typ == 5 else 19 <= typ <= 21
  }

  /** The types of the sets that a processor remembers: SPS and PPS, or VPS, SPS and PPS. */
  function SetTypes(codec: Codec): seq<nat> {
    if codec.H264? then [7, 8] else [32, 33, 34]
  }

  function DelimiterType(codec: Codec): nat {
    if codec.H264? then 9 else 35
  }

  function AggregationType(codec: Codec): nat {
    if codec.H264? then 24 else 48
  }

  function SetKinds(codec: Codec): seq<Kind> {
    if codec.H264? then [SPS, PPS] else [VPS, SPS, PPS]
  }

  /** The kinds have these numbers. */
  lemma KindsHaveTypes(codec: Codec, u: Unit)
    ensures KindOf(codec, u[0]) == Key <==> StartsKeyFrame(codec, TypeOf(codec, u))
    ensures KindOf(codec, u[0]) == Delimiter <==> TypeOf(codec, u) == DelimiterType(codec)
    ensures KindOf(codec, u[0]) == Aggregation <==> TypeOf(codec, u) == AggregationType(codec)
    ensures forall k :: 0 <= k < |SetTypes(codec)| ==>
      (KindOf(codec, u[0]) == SetKinds(codec)[k] <==> TypeOf(codec, u) == SetTypes(codec)[k])
    ensures Stays(KindOf(codec, u[0])) <==> IsKept(codec, TypeOf(codec, u))
  {
  }

  predicate IsKept(codec: Codec, typ: nat) {
    if codec.H264? then typ != 7 && typ != 8 && typ != 9 else !(32 <= typ <= 35)
  }

  // Normalising

  /** The units that are neither parameter sets nor delimiters, in their order. */
  function Kept(codec: Codec, au: seq<Unit>): seq<Unit> {
    if au == [] then []
    else (if IsKept(codec, TypeOf(codec, au[0])) then [au[0]] else []) + Kept(codec, au[1..])
  }

  lemma {:induction false} KeptHas(codec: Codec, au: seq<Unit>, u: Unit)
    ensures u in Kept(codec, au) <==> u in au && IsKept(codec, TypeOf(codec, u))
  {
    if au != [] {
      KeptHas(codec, au[1..], u);
      assert u in au <==> u == au[0] || u in au[1..];
    }
  }

  predicate IsKeyFrame(codec: Codec, au: seq<Unit>) {
    exists i :: 0 <= i < |au| && StartsKeyFrame(codec, TypeOf(codec, au[i]))
  }

  /** A key frame is preceded by the stored sets, if all are known; nothing is put out if no unit is left. */
  function Normalised(codec: Codec, stored: Params, au: seq<Unit>): Option<seq<Unit>> {
    if IsKeyFrame(codec, au) && (forall k :: 0 <= k < |stored| ==> stored[k].Some?)
    then Some(seq(|stored|, k requires 0 <= k < |stored| => stored[k].value) + Kept(codec, au))
    else if Kept(codec, au) == [] then None
    else Some(Kept(codec, au))
  }

  lemma FilteredFirst(codec: Codec, u: Unit, rest: seq<Unit>)
    ensures Filtered(codec, [u] + rest) ==
            (if IsKept(codec, TypeOf(codec, u)) then [u] else []) + Filtered(codec, rest)
  {
    FilteredConcat(codec, [u], rest);
    KindsHaveTypes(codec, u);
    assert [u][..0] == [];
  }

  lemma {:induction false} FilteredIsKept(codec: Codec, au: seq<Unit>)
    ensures Filtered(codec, au) == Kept(codec, au)
  {
    if au != [] {
      FilteredIsKept(codec, au[1..]);
      FilteredFirst(codec, au[0], au[1..]);
      assert [au[0]] + au[1..] == au;
    }
  }

  lemma KeyIsKeyFrame(codec: Codec, au: seq<Unit>)
    ensures HasKey(codec, au) <==> IsKeyFrame(codec, au)
  {
    forall i | 0 <= i < |au| ensures KindOf(codec, au[i][0]) == Key <==> StartsKeyFrame(codec, TypeOf(codec, au[i])) {
      KindsHaveTypes(codec, au[i]);
    }
  }

  lemma {:induction false} KeyUnitIsKept(codec: Codec, au: seq<Unit>)
    requires IsKeyFrame(codec, au)
    ensures Kept(codec, au) != []
  {
    if !IsKept(codec, TypeOf(codec, au[0])) {
      var i :| 0 <= i < |au| && StartsKeyFrame(codec, TypeOf(codec, au[i]));
      assert au[1..][i - 1] == au[i];
      KeyUnitIsKept(codec, au[1..]);
    }
  }

  /**
   * What `remuxAccessUnit` puts out: the stored sets if and only if there is a unit of type 5 (in H265, 19 to 21) and
   * all sets are known, and behind them exactly the units whose type is not 7, 8 or 9 (not 32 to 35).
   */
  lemma RemuxedIsNormalised(codec: Codec, stored: Params, au: seq<Unit>)
    ensures Remuxed(codec, stored, au) == Normalised(codec, stored, au)
  {
    FilteredIsKept(codec, au);
    KeyIsKeyFrame(codec, au);
    assert Known(stored) <==> forall k :: 0 <= k < |stored| ==> stored[k].Some?;
    assert [] + Kept(codec, au) == Kept(codec, au);
    if IsKeyFrame(codec, au) && Known(stored) {
      KeyUnitIsKept(codec, au);
      assert Values(stored) == seq(|stored|, k requires 0 <= k < |stored| => stored[k].value);
    }
  }

  // Remembering

  /** The last unit of a type. */
  function LastOfType(codec: Codec, typ: nat, units: seq<Unit>): Option<Unit> {
    if units == [] then None
    else if LastOfType(codec, typ, units[1..]).Some? then LastOfType(codec, typ, units[1..])
    else if TypeOf(codec, units[0]) == typ then Some(units[0])
    else None
  }

  lemma {:induction false} LastOfIsLastOfType(codec: Codec, k: nat, units: seq<Unit>)
    requires k < |SetTypes(codec)|
    ensures LastOf(codec, SetKinds(codec)[k], units) == LastOfType(codec, SetTypes(codec)[k], units)
  {
    if units != [] {
      LastOfIsLastOfType(codec, k, units[1..]);
      LastOfConcat(codec, SetKinds(codec)[k], [units[0]], units[1..]);
      KindsHaveTypes(codec, units[0]);
      assert [units[0]] + units[1..] == units && [units[0]][..0] == [];
    }
  }

  /** The units of a packet: only one of type 24 (48) is opened, behind its header of one byte (two). */
  function Opened(codec: Codec, payload: seq<Byte>): seq<Unit> {
    var header := if codec.H264? then 1 else 2;
    if |payload| < header then []
    else if TypeOf(codec, payload) != AggregationType(codec) then [payload]
    else match Parse(payload[header..]) case Some(units) => units case None => []
  }

  lemma OfPayloadIsLast(codec: Codec, k: nat, payload: seq<Byte>)
    requires k < |SetTypes(codec)|
    ensures OfPayload(codec, SetKinds(codec)[k], payload) ==
            LastOfType(codec, SetTypes(codec)[k], Opened(codec, payload))
  {
    if |payload| >= HeaderSize(codec) {
      KindsHaveTypes(codec, payload);
      if TypeOf(codec, payload) == AggregationType(codec) {
        LastOfIsLastOfType(codec, k, Opened(codec, payload));
      } else {
        assert [payload][1..] == [];
      }
    }
  }

  /** The last unit of a type that is not the stored one. */
  function LastOtherOfType(typ: nat, stored: Option<Unit>, units: seq<Unit>): Option<Unit> {
    if units == [] then None
    else
      var u := units[|units| - 1];
      if TypeOf(H265, u) == typ && Some(u) != stored then Some(u)
      else LastOtherOfType(typ, stored, units[..|units| - 1])
  }

  lemma {:induction false} LastOtherIsOfType(k: nat, stored: Option<Unit>, units: seq<Unit>)
    requires k < 3
    ensures LastOther(SetKinds(H265)[k], stored, units) == LastOtherOfType(SetTypes(H265)[k], stored, units)
  {
    if units != [] {
      LastOtherIsOfType(k, stored, units[..|units| - 1]);
      KindsHaveTypes(H265, units[|units| - 1]);
    }
  }
}
