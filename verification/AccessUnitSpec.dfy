/**
 * Normalisation of H264 and H265 access units (formatprocessor/h264.go, formatprocessor/h265.go): parameter sets are
 * taken out of the stream, remembered, and put in front of every key frame.
 */
module AccessUnitSpec {
  import opened Common

  type Byte = x: int | 0 <= x < 256

  /** A NAL unit; it has at least the byte that tells its kind. */
  type Unit = u: seq<Byte> | u != [] witness [0]

  datatype Codec = H264 | H265

  datatype Kind = VPS | SPS | PPS | Delimiter | Key | Aggregation | Other

  function KindOf(codec: Codec, header: Byte): Kind {
    match codec
    case H264 =>
      (match header % 32
       case 5 => Key
       case 7 => SPS
       case 8 => PPS
       case 9 => Delimiter
       case 24 => Aggregation
       case _ => Other)
    case H265 =>
      (match header / 2 % 64
       case 19 => Key
       case 20 => Key
       case 21 => Key
       case 32 => VPS
       case 33 => SPS
       case 34 => PPS
       case 35 => Delimiter
       case 48 => Aggregation
       case _ => Other)
  }

  predicate Stays(k: Kind) {
    k != VPS && k != SPS && k != PPS && k != Delimiter
  }

  // Removing and adding parameters

  function Filtered(codec: Codec, au: seq<Unit>): seq<Unit>
  {
    if au == [] then []
    else
      Filtered(codec, au[..|au| - 1]) +
      if Stays(KindOf(codec, au[|au| - 1][0])) then [au[|au| - 1]] else []
  }

  predicate HasKey(codec: Codec, au: seq<Unit>)
  {
    exists i :: 0 <= i < |au| && KindOf(codec, au[i][0]) == Key
  }

  /** The stored parameter sets: SPS and PPS, or VPS, SPS and PPS. */
  type Params = seq<Option<Unit>>

  predicate Known(params: Params) {
    forall p <- params :: p.Some?
  }

  function Values(params: Params): seq<Unit>
    requires Known(params)
  {
    seq(|params|, i requires 0 <= i < |params| => params[i].value)
  }

  function Prefix(codec: Codec, params: Params, au: seq<Unit>): seq<Unit>
  {
    if HasKey(codec, au) && Known(params) then Values(params) else []
  }

  function Remuxed(codec: Codec, params: Params, au: seq<Unit>): Option<seq<Unit>>
  {
    var units := Prefix(codec, params, au) + Filtered(codec, au);
    if units == [] then None else Some(units)
  }

  /** Every stored set is a parameter set. */
  predicate WellTyped(codec: Codec, params: Params) {
    forall p <- params :: p.Some? ==> !Stays(KindOf(codec, p.value[0]))
  }

  lemma {:induction false} FilteredConcat(codec: Codec, a: seq<Unit>, b: seq<Unit>)
    ensures Filtered(codec, a + b) == Filtered(codec, a) + Filtered(codec, b)
  {
    if b == [] {
      assert a + b == a;
    } else {
      FilteredConcat(codec, a, b[..|b| - 1]);
      assert (a + b)[..|a + b| - 1] == a + b[..|b| - 1];
    }
  }

  lemma {:induction false} FilteredHas(codec: Codec, au: seq<Unit>, u: Unit)
    ensures u in Filtered(codec, au) <==> u in au && Stays(KindOf(codec, u[0]))
  {
    if au != [] {
      FilteredHas(codec, au[..|au| - 1], u);
      assert u in au <==> u in au[..|au| - 1] || u == au[|au| - 1];
    }
  }

  lemma {:induction false} AllStay(codec: Codec, units: seq<Unit>)
    requires forall u <- units :: Stays(KindOf(codec, u[0]))
    ensures Filtered(codec, units) == units
  {
    if units != [] {
      AllStay(codec, units[..|units| - 1]);
      assert units == units[..|units| - 1] + [units[|units| - 1]];
    }
  }

  lemma FilteredStays(codec: Codec, au: seq<Unit>)
    ensures Filtered(codec, Filtered(codec, au)) == Filtered(codec, au)
    ensures forall u :: u in Filtered(codec, au) <==> u in au && Stays(KindOf(codec, u[0]))
  {
    forall u: Unit ensures u in Filtered(codec, au) <==> u in au && Stays(KindOf(codec, u[0])) {
      FilteredHas(codec, au, u);
    }
    AllStay(codec, Filtered(codec, au));
  }

  lemma {:induction false} NothingStays(codec: Codec, units: seq<Unit>)
    requires forall u <- units :: !Stays(KindOf(codec, u[0]))
    ensures Filtered(codec, units) == []
  {
    if units != [] {
      NothingStays(codec, units[..|units| - 1]);
    }
  }

  lemma KeyIn(codec: Codec, au: seq<Unit>)
    ensures HasKey(codec, au) <==> exists u <- au :: KindOf(codec, u[0]) == Key
  {
  }

  lemma KeyStays(codec: Codec, au: seq<Unit>)
    ensures HasKey(codec, Filtered(codec, au)) <==> HasKey(codec, au)
  {
    FilteredStays(codec, au);
    KeyIn(codec, au);
    KeyIn(codec, Filtered(codec, au));
  }

  lemma HasKeyConcat(codec: Codec, a: seq<Unit>, b: seq<Unit>)
    requires forall u <- a :: KindOf(codec, u[0]) != Key
    ensures (HasKey(codec, a + b) <==> HasKey(codec, b))
  {
    if HasKey(codec, b) {
      var i :| 0 <= i < |b| && KindOf(codec, b[i][0]) == Key;
      assert KindOf(codec, (a + b)[|a| + i][0]) == Key;
    }
  }

  lemma PrefixIsWellTyped(codec: Codec, params: Params, au: seq<Unit>)
    requires WellTyped(codec, params)
    ensures forall u <- Prefix(codec, params, au) :: !Stays(KindOf(codec, u[0]))
  {
    if HasKey(codec, au) && Known(params) {
      forall i | 0 <= i < |params| ensures !Stays(KindOf(codec, Values(params)[i][0])) {
        assert params[i] in params;
      }
    }
  }

  /** Normalising a normalised access unit changes nothing. */
  lemma RemuxIsIdempotent(codec: Codec, params: Params, au: seq<Unit>)
    requires WellTyped(codec, params)
    ensures var r := Remuxed(codec, params, au);
      r.Some? ==> Remuxed(codec, params, r.value) == r
  {
    var prefix, filtered := Prefix(codec, params, au), Filtered(codec, au);
    PrefixIsWellTyped(codec, params, au);
    FilteredStays(codec, au);
    KeyStays(codec, au);
    NothingStays(codec, prefix);
    FilteredConcat(codec, prefix, filtered);
    HasKeyConcat(codec, prefix, filtered);
    assert Prefix(codec, params, prefix + filtered) == prefix;
    assert [] + filtered == filtered;
  }

  // Remembering parameters

  function LastOf(codec: Codec, kind: Kind, units: seq<Unit>): Option<Unit>
  {
    if units == [] then None
    else if KindOf(codec, units[|units| - 1][0]) == kind then Some(units[|units| - 1])
    else LastOf(codec, kind, units[..|units| - 1])
  }

  function OrElse(a: Option<Unit>, b: Option<Unit>): Option<Unit> {
    if a.Some? then a else b
  }

  lemma {:induction false} LastOfConcat(codec: Codec, kind: Kind, a: seq<Unit>, b: seq<Unit>)
    ensures LastOf(codec, kind, a + b) == OrElse(LastOf(codec, kind, b), LastOf(codec, kind, a))
  {
    if b == [] {
      assert a + b == a;
    } else {
      assert (a + b)[..|a + b| - 1] == a + b[..|b| - 1];
      LastOfConcat(codec, kind, a, b[..|b| - 1]);
    }
  }

  /** The last unit of a kind that is not the stored one: H265 units are compared with what was stored before. */
  function LastOther(kind: Kind, stored: Option<Unit>, units: seq<Unit>): Option<Unit>
  {
    if units == [] then None
    else
      var u := units[|units| - 1];
      if KindOf(H265, u[0]) == kind && Some(u) != stored then Some(u)
      else LastOther(kind, stored, units[..|units| - 1])
  }

  predicate HasOther(kind: Kind, stored: Option<Unit>, units: seq<Unit>)
  {
    exists i :: 0 <= i < |units| && KindOf(H265, units[i][0]) == kind && Some(units[i]) != stored
  }

  lemma {:induction false} LastOtherExists(kind: Kind, stored: Option<Unit>, units: seq<Unit>)
    ensures LastOther(kind, stored, units).Some? <==> HasOther(kind, stored, units)
  {
    if units != [] {
      var front := units[..|units| - 1];
      LastOtherExists(kind, stored, front);
      if HasOther(kind, stored, front) {
        var i :| 0 <= i < |front| && KindOf(H265, front[i][0]) == kind && Some(front[i]) != stored;
        assert KindOf(H265, units[i][0]) == kind && Some(units[i]) != stored;
      }
    }
  }

  lemma {:induction false} LastOtherIsOther(kind: Kind, stored: Option<Unit>, units: seq<Unit>)
    ensures LastOther(kind, stored, units).Some? ==> LastOther(kind, stored, units) != stored
    ensures LastOther(kind, stored, units) == LastOf(H265, kind, units) ||
            LastOf(H265, kind, units) == stored
  {
    if units != [] {
      LastOtherIsOther(kind, stored, units[..|units| - 1]);
    }
  }

  /**
   * The last parameter set of an H265 access unit is the one that is stored, except in one case: it is the set stored
   * before, and the same access unit also holds a different one.
   */
  lemma LastWinsExactlyWhen(kind: Kind, stored: Option<Unit>, units: seq<Unit>)
    ensures
      OrElse(LastOther(kind, stored, units), stored) == OrElse(LastOf(H265, kind, units), stored) <==>
      !(LastOf(H265, kind, units).Some? && LastOf(H265, kind, units) == stored && HasOther(kind, stored, units))
  {
    LastOtherExists(kind, stored, units);
    LastOtherIsOther(kind, stored, units);
  }

  /** The exception: A is stored, then B and A arrive together, and B is stored. */
  lemma LastCanLose()
    ensures
      var a: Unit := [66, 1, 1];
      var b: Unit := [66, 1, 2];
      LastOf(H265, SPS, [b, a]) == Some(a) && OrElse(LastOther(SPS, Some(a), [b, a]), Some(a)) == Some(b)
  {
    var a: Unit := [66, 1, 1];
    var b: Unit := [66, 1, 2];
    assert [b, a][..1] == [b];
    assert LastOther(SPS, Some(a), [b]) == Some(b);
  }

  // Aggregation packets

  /** The big-endian size at the beginning of `payload`. */
  function SizeIn(payload: seq<Byte>): nat
    requires |payload| >= 2
  {
    var hi: nat, lo: nat := payload[0], payload[1];
    hi * 256 + lo
  }

  /** The units that follow the header of an aggregation packet; `None` if the last one is cut off. */
  function Parse(payload: seq<Byte>): Option<seq<Unit>>
  {
    if |payload| < 2 then Some([])
    else
      var size, rest := SizeIn(payload), payload[2..];
      if size == 0 then Some([])
      else if size > |rest| then None
      else
        var others := Parse(rest[size..]);
        if others.None? then None else Some([rest[..size]] + others.value)
  }

  function SizeOf(n: nat): seq<Byte>
    requires n <= 65535
  {
    [n / 256, n % 256]
  }

  predicate Fits(units: seq<Unit>) {
    forall u <- units :: |u| <= 65535
  }

  function Serialized(units: seq<Unit>): seq<Byte>
    requires Fits(units)
  {
    if units == [] then [] else SizeOf(|units[0]|) + units[0] + Serialized(units[1..])
  }

  function Prepended(units: seq<Unit>, rest: Option<seq<Unit>>): Option<seq<Unit>> {
    if rest.None? then None else Some(units + rest.value)
  }

  lemma ParseOne(u: Unit, rest: seq<Byte>)
    requires |u| <= 65535
    ensures Parse(SizeOf(|u|) + u + rest) == Prepended([u], Parse(rest))
  {
    var payload := SizeOf(|u|) + u + rest;
    assert payload[0] == |u| / 256 && payload[1] == |u| % 256;
    assert payload[2..] == u + rest;
    assert (u + rest)[..|u|] == u && (u + rest)[|u|..] == rest;
  }

  lemma PrependedTwice(u: Unit, units: seq<Unit>, rest: Option<seq<Unit>>)
    ensures Prepended([u], Prepended(units, rest)) == Prepended([u] + units, rest)
  {
    if rest.Some? {
      assert [u] + (units + rest.value) == [u] + units + rest.value;
    }
  }

  /** What is in front is parsed, whatever follows it. */
  lemma {:induction false} ParseSerialized(units: seq<Unit>, rest: seq<Byte>)
    requires Fits(units)
    ensures Parse(Serialized(units) + rest) == Prepended(units, Parse(rest))
  {
    if units == [] {
      assert Serialized(units) + rest == rest;
      assert Parse(rest).Some? ==> units + Parse(rest).value == Parse(rest).value;
    } else {
      ParseSerializedStep(units, rest);
      ParseSerialized(units[1..], rest);
      PrependedTwice(units[0], units[1..], Parse(rest));
      assert units == [units[0]] + units[1..];
    }
  }

  lemma ParseSerializedStep(units: seq<Unit>, rest: seq<Byte>)
    requires Fits(units) && units != []
    ensures Parse(Serialized(units) + rest) == Prepended([units[0]], Parse(Serialized(units[1..]) + rest))
  {
    ParseOne(units[0], Serialized(units[1..]) + rest);
    assert Serialized(units) + rest == SizeOf(|units[0]|) + units[0] + (Serialized(units[1..]) + rest);
  }

  /** The units come back. */
  lemma ParseRoundTrip(units: seq<Unit>)
    requires Fits(units)
    ensures Parse(Serialized(units)) == Some(units)
  {
    ParseSerialized(units, []);
    assert Serialized(units) + [] == Serialized(units) && units + [] == units;
  }

  /** Padding that starts with a zero size is ignored. */
  lemma ParsePadded(units: seq<Unit>, padding: seq<Byte>)
    requires Fits(units)
    ensures Parse(Serialized(units) + ([0, 0] + padding)) == Some(units)
  {
    ParseSerialized(units, [0, 0] + padding);
    assert units + [] == units;
  }

  /** A unit that is cut off spoils the packet. */
  lemma ParseCutOff(units: seq<Unit>, u: Unit, k: nat)
    requires Fits(units) && |u| <= 65535 && k < |u|
    ensures Parse(Serialized(units) + (SizeOf(|u|) + u[..k])) == None
  {
    ParseSerialized(units, SizeOf(|u|) + u[..k]);
    var cut := SizeOf(|u|) + u[..k];
    assert cut[0] == |u| / 256 && cut[1] == |u| % 256 && |cut[2..]| == k;
  }

  lemma SerializedOneMore(head: seq<Byte>, u: Unit, rest: seq<Byte>, others: seq<Unit>)
    requires |head| == 2 && SizeIn(head) == |u| && Fits(others) && Serialized(others) <= rest
    ensures Fits([u] + others) && Serialized([u] + others) <= head + u + rest
  {
    assert head == SizeOf(|u|);
    assert ([u] + others)[1..] == others;
  }

  lemma ParseIsSoundStep(payload: seq<Byte>, size: nat, others: seq<Unit>)
    requires |payload| >= 2 && size == SizeIn(payload) && 0 < size <= |payload| - 2
    requires Fits(others) && Serialized(others) <= payload[2..][size..]
    ensures Fits([payload[2..][..size]] + others) && Serialized([payload[2..][..size]] + others) <= payload
  {
    var head, u, rest := payload[..2], payload[2..][..size], payload[2..][size..];
    SerializedOneMore(head, u, rest, others);
    assert payload == head + u + rest;
  }

  /** Whatever is parsed is really there. */
  lemma {:induction false} ParseIsSound(payload: seq<Byte>)
    requires Parse(payload).Some?
    ensures Fits(Parse(payload).value) && Serialized(Parse(payload).value) <= payload
  {
    if |payload| >= 2 && SizeIn(payload) > 0 {
      var size := SizeIn(payload);
      ParseIsSound(payload[2..][size..]);
      ParseIsSoundStep(payload, size, Parse(payload[2..][size..]).value);
    }
  }

  function HeaderSize(codec: Codec): nat {
    if codec.H264? then 1 else 2
  }

  function OfPayload(codec: Codec, kind: Kind, payload: seq<Byte>): Option<Unit> {
    if |payload| < HeaderSize(codec) then None
    else if KindOf(codec, payload[0]) == kind then Some(payload)
    else if KindOf(codec, payload[0]) == Aggregation && Parse(payload[HeaderSize(codec)..]).Some?
    then LastOf(codec, kind, Parse(payload[HeaderSize(codec)..]).value)
    else None
  }

  /** An aggregation packet yields the last parameter set of each kind among its units. */
  lemma AggregationYieldsLast(codec: Codec, kind: Kind, header: seq<Byte>, units: seq<Unit>)
    requires |header| == HeaderSize(codec) && KindOf(codec, header[0]) == Aggregation && kind != Aggregation
    requires Fits(units)
    ensures OfPayload(codec, kind, header + Serialized(units)) == LastOf(codec, kind, units)
  {
    assert (header + Serialized(units))[HeaderSize(codec)..] == Serialized(units);
    ParseSerialized(units, []);
    assert Serialized(units) + [] == Serialized(units) && units + [] == units;
  }
}
