/** The muxers as objects: muxerFMP4 and muxerMP4. */
module MuxerActor {
  import opened MuxerSpec
  import MuxerProofs

  /** `findTrack`: the first track with the given identifier. */
  method FindTrack(ids: seq<int>, id: int) returns (i: nat)
    ensures i <= |ids| && (i < |ids| <==> id in ids)
    ensures i < |ids| ==> ids[i] == id && id !in ids[..i]
  {
    i := 0;
    while i < |ids|
      invariant i <= |ids| && id !in ids[..i]
    {
      if ids[i] == id {
        return;
      }
      i := i + 1;
    }
  }

  class MuxerFMP4 {
    const ids: seq<int>
    const tracks: array<Track>
    var curTrack: nat
    var initPending: bool
    var nextSequenceNumber: nat
    var out: seq<Box>

    ghost function Value(): State
      reads this, tracks
    {
      State(tracks[..], initPending, nextSequenceNumber, out)
    }

    ghost predicate Valid()
      reads this, tracks
    {
      |ids| == tracks.Length && Value().Valid()
    }

    /** `writeInit` on a new muxer */
    constructor (ids: seq<int>, timeScales: seq<nat>)
      requires |ids| == |timeScales|
      ensures Valid() && Value() == Start(timeScales) && this.ids == ids && fresh(tracks)
    {
      this.ids := ids;
      tracks := new Track[|timeScales|](i requires 0 <= i < |timeScales| => NewTrack(timeScales[i]));
      curTrack, initPending, nextSequenceNumber, out := 0, true, 0, [];
    }

    method SetTrack(id: int)
      requires id in ids
      modifies this`curTrack
      ensures curTrack < |ids| && ids[curTrack] == id && id !in ids[..curTrack]
    {
      curTrack := FindTrack(ids, id);
    }

    method WriteSample(dts: int, ptsOffset: int, isNonSyncSample: bool, payload: nat)
      requires Valid() && curTrack < |ids|
      modifies this`initPending, this`nextSequenceNumber, this`out, tracks
      ensures Valid()
      ensures Value() == Write(old(Value()), curTrack, Frame(dts, ptsOffset, isNonSyncSample, payload))
    {
      var t := tracks[curTrack];
      assert t == Value().tracks[curTrack] && t.Valid();
      if dts >= 0 {
        if t.firstDTS < 0 {
          t := t.(firstDTS := dts);
          if !isNonSyncSample {
            t := t.(samples := []);
          }
        } else {
          var diff := dts - t.lastDTS;
          if diff < 0 {
            diff := 0;
          }
          t := t.(samples := WithLastDuration(t.samples, diff % TWO_32));
        }
        t := t.(samples := t.samples + [Sample(ptsOffset, isNonSyncSample, 0, payload)], lastDTS := dts);
        tracks[curTrack] := t;
        ghost var frame := Frame(dts, ptsOffset, isNonSyncSample, payload);
        assert Value() == old(Value()).(
          tracks := old(tracks[..])[curTrack := Buffer(old(tracks[curTrack]), frame)]);
        if t.lastDTS - t.firstDTS >= PartTicks(t.timeScale) {
          InnerFlush(false);
        }
      } else {
        if !isNonSyncSample {
          t := t.(samples := [Sample(0, isNonSyncSample, 0, payload)]);
        } else {
          t := t.(samples := t.samples + [Sample(0, isNonSyncSample, 0, payload)]);
        }
        tracks[curTrack] := t;
        assert [] + [Sample(0, isNonSyncSample, 0, payload)] == [Sample(0, isNonSyncSample, 0, payload)];
        assert tracks[..] == old(tracks[..])[curTrack := t];
      }
    }

    method WriteFinalDTS(dts: int)
      requires Valid() && curTrack < |ids|
      modifies tracks
      ensures Valid() && Value() == Step(old(Value()), Call.WriteFinalDTS(curTrack, dts))
    {
      var t := tracks[curTrack];
      assert t == Value().tracks[curTrack] && t.Valid();
      if t.firstDTS >= 0 {
        var diff := dts - t.lastDTS;
        if diff < 0 {
          diff := 0;
        }
        tracks[curTrack] := t.(samples := WithLastDuration(t.samples, diff % TWO_32));
      }
    }

    /** The loop of `innerFlush` over tracks. */
    method TakeOutgoing(final: bool) returns (part: seq<PartTrack>)
      modifies tracks
      ensures part == OutgoingTracks(old(tracks[..]), final)
      ensures tracks[..] == MuxerSpec.InnerFlush(old(Value()), final).tracks
    {
      part := [];
      ghost var before := tracks[..];
      for i := 0 to tracks.Length
        invariant part == OutgoingTracks(before[..i], final)
        invariant forall k :: 0 <= k < tracks.Length ==>
          tracks[k] == if k < i then Remaining(before[k], final) else before[k]
      {
        assert before[..i + 1][..i] == before[..i];
        var track := tracks[i];
        if track.firstDTS >= 0 && (|track.samples| > 1 || (final && |track.samples| != 0)) {
          var samples := if final then track.samples else track.samples[..|track.samples| - 1];
          part := part + [PartTrack(i, track.firstDTS, samples)];
          if !final {
            tracks[i] := track.(samples := track.samples[|track.samples| - 1..], firstDTS := track.lastDTS);
          }
        }
      }
      assert before[..|before|] == before;
    }

    method InnerFlush(final: bool)
      requires Valid()
      modifies this`initPending, this`nextSequenceNumber, this`out, tracks
      ensures Valid() && Value() == MuxerSpec.InnerFlush(old(Value()), final)
    {
      var part := TakeOutgoing(final);
      if part != [] {
        var number := nextSequenceNumber;
        nextSequenceNumber := (nextSequenceNumber + 1) % TWO_32;
        if initPending {
          out := out + [Init];
          initPending := false;
        }
        out := out + [Part(number, part)];
      }
      assert MuxerSpec.InnerFlush(old(Value()), final).out == out;
    }

    method Flush()
      requires Valid()
      modifies this`initPending, this`nextSequenceNumber, this`out, tracks
      ensures Valid() && Value() == MuxerSpec.InnerFlush(old(Value()), true)
    {
      InnerFlush(true);
    }
  }

  class MuxerMP4 {
    const ids: seq<int>
    const tracks: array<FileTrack>
    var curTrack: nat

    ghost predicate Valid()
      reads this
    {
      |ids| == tracks.Length
    }

    constructor (ids: seq<int>)
      ensures Valid() && this.ids == ids && fresh(tracks)
      ensures forall i :: 0 <= i < |ids| ==> tracks[i] == NEW_FILE_TRACK
    {
      this.ids := ids;
      tracks := new FileTrack[|ids|](_ => NEW_FILE_TRACK);
      curTrack := 0;
    }

    method SetTrack(id: int)
      requires id in ids
      modifies this`curTrack
      ensures curTrack < |ids| && ids[curTrack] == id && id !in ids[..curTrack]
    {
      curTrack := FindTrack(ids, id);
    }

    method WriteSample(dts: int, ptsOffset: int, isNonSyncSample: bool, payload: nat)
      requires Valid() && curTrack < |ids|
      modifies tracks
      ensures Valid()
      ensures tracks[..] == old(tracks[..])[
        curTrack := FileWrite(old(tracks[curTrack]), Frame(dts, ptsOffset, isNonSyncSample, payload))]
    {
      var t := tracks[curTrack];
      if (dts < 0 || (dts >= 0 && t.lastDTS < 0)) && !isNonSyncSample {
        t := t.(samples := []);
      }
      if t.samples == [] {
        t := t.(timeOffset := Int32(dts));
      } else {
        var diff := dts - t.lastDTS;
        if diff < 0 {
          diff := 0;
        }
        t := t.(samples := WithLastDuration(t.samples, diff % TWO_32));
      }
      var offset := if isNonSyncSample then ptsOffset else 0;
      assert [] + [Sample(offset, isNonSyncSample, 0, payload)] == [Sample(offset, isNonSyncSample, 0, payload)];
      t := t.(samples := t.samples + [Sample(offset, isNonSyncSample, 0, payload)], lastDTS := dts);
      tracks[curTrack] := t;
    }

    method WriteFinalDTS(dts: int)
      requires Valid() && curTrack < |ids| && tracks[curTrack].samples != []
      modifies tracks
      ensures Valid()
      ensures tracks[..] == old(tracks[..])[curTrack := FileFinalDTS(old(tracks[curTrack]), dts)]
    {
      var t := tracks[curTrack];
      var diff := dts - t.lastDTS;
      if diff < 0 {
        diff := 0;
      }
      tracks[curTrack] := t.(samples := WithLastDuration(t.samples, diff % TWO_32));
    }
  }

  predicate Distinct(ids: seq<int>) {
    forall i, j :: 0 <= i < j < |ids| ==> ids[i] != ids[j]
  }

  /** A request answered with fragments. */
  method MuxFMP4(ids: seq<int>, timeScales: seq<nat>, calls: seq<Call>) returns (out: seq<Box>)
    requires |ids| == |timeScales| && Distinct(ids) && Proper(calls, |ids|)
    ensures forall t :: 0 <= t < |ids| && Ordered(HistoryOf(calls, t).frames) ==>
      SamplesOf(FragmentsOf(out, t)) ==
      if MuxerProofs.Inside(HistoryOf(calls, t).frames) then FragmentedSamples(HistoryOf(calls, t)) else []
  {
    var m := new MuxerFMP4(ids, timeScales);
    for i := 0 to |calls|
      invariant m.Valid() && m.ids == ids && fresh(m) && fresh(m.tracks)
      invariant m.Value() == Run(timeScales, calls[..i])
    {
      assert calls[..i + 1][..i] == calls[..i];
      m.SetTrack(ids[calls[i].track]);
      match calls[i]
      case WriteSample(_, x) => m.WriteSample(x.dts, x.ptsOffset, x.nonSync, x.payload);
      case WriteFinalDTS(_, dts) => m.WriteFinalDTS(dts);
    }
    assert calls[..|calls|] == calls;
    m.Flush();
    out := m.out;
    forall t | 0 <= t < |ids| && Ordered(HistoryOf(calls, t).frames)
      ensures SamplesOf(FragmentsOf(out, t)) ==
        if MuxerProofs.Inside(HistoryOf(calls, t).frames) then FragmentedSamples(HistoryOf(calls, t)) else []
    {
      MuxerProofs.FragmentsHoldTheFrames(timeScales, calls, t);
    }
  }

  lemma FinalAfterSamplePrefix(calls: seq<Call>, i: nat)
    requires FinalAfterSample(calls) && i < |calls|
    ensures FinalAfterSample(calls[..i]) && FinalAfterSample(calls[..i + 1])
    ensures calls[..i + 1][..i] == calls[..i]
    ensures calls[i].WriteFinalDTS? ==> HistoryOf(calls[..i], calls[i].track).frames != []
  {
    assert forall j :: 0 <= j < i + 1 ==> calls[..i + 1][..j] == calls[..j];
    assert forall j :: 0 <= j < i ==> calls[..i][..j] == calls[..j];
  }

  /** A request answered with a single file. */
  method MuxMP4(ids: seq<int>, calls: seq<Call>) returns (file: seq<FileTrack>)
    requires Distinct(ids) && Proper(calls, |ids|) && FinalAfterSample(calls)
    ensures |file| == |ids|
    ensures forall t :: 0 <= t < |ids| && Ordered(HistoryOf(calls, t).frames) ==>
      MuxerProofs.FileAgrees(file[t], HistoryOf(calls, t))
  {
    var m := new MuxerMP4(ids);
    for i := 0 to |calls|
      invariant m.Valid() && m.ids == ids && fresh(m) && fresh(m.tracks)
      invariant FinalAfterSample(calls[..i])
      invariant forall t :: 0 <= t < |ids| ==> m.tracks[t] == FileRun(calls[..i], t)
    {
      FinalAfterSamplePrefix(calls, i);
      m.SetTrack(ids[calls[i].track]);
      match calls[i]
      case WriteSample(_, x) => m.WriteSample(x.dts, x.ptsOffset, x.nonSync, x.payload);
      case WriteFinalDTS(_, dts) => m.WriteFinalDTS(dts);
    }
    assert calls[..|calls|] == calls;
    file := m.tracks[..];
    forall t | 0 <= t < |ids| && Ordered(HistoryOf(calls, t).frames)
      ensures MuxerProofs.FileAgrees(file[t], HistoryOf(calls, t))
    {
      MuxerProofs.FileHoldsTheFrames(calls, t);
    }
  }
}
