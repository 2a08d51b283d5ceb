/** Both playback muxers keep the same frames, and fragments follow each other without a gap. */
module MuxerProofs {
  import opened MuxerSpec

  // Where decoding has to start, when one more frame is given

  predicate Inside(frames: seq<Frame>) {
    FirstInside(frames) < |frames|
  }

  lemma {:induction false} LastSyncIsLocal(frames: seq<Frame>, x: Frame, n: nat)
    requires n <= |frames|
    ensures LastSyncBefore(frames + [x], n) == LastSyncBefore(frames, n)
  {
    if n > 0 {
      LastSyncIsLocal(frames, x, n - 1);
    }
  }

  lemma StartAfter(frames: seq<Frame>, x: Frame)
    ensures Inside(frames + [x]) <==> Inside(frames) || x.dts >= 0
    ensures StartOf(frames + [x]) == if Inside(frames) || x.nonSync then StartOf(frames) else |frames|
  {
    assert (frames + [x])[..|frames|] == frames;
    LastSyncIsLocal(frames, x, FirstInside(frames));
  }

  lemma LastIsInside(frames: seq<Frame>)
    requires Ordered(frames) && frames != []
    ensures Inside(frames) <==> frames[|frames| - 1].dts >= 0
  {
    assert frames[..|frames| - 1] + [frames[|frames| - 1]] == frames;
  }

  function FragmentedNew(x: Frame): Sample {
    Sample(if x.dts < 0 then 0 else x.ptsOffset, x.nonSync, 0, x.payload)
  }

  lemma SampleAfterFrame(h: History, x: Frame, i: nat)
    requires i < |h.frames|
    ensures FragmentedSample(History(h.frames + [x], []), i) ==
      if i < |h.frames| - 1 || h.frames[i].dts < 0 then FragmentedSample(h, i)
      else FragmentedSample(h, i).(duration := Clip(x.dts - h.frames[i].dts))
  {
    var h1 := History(h.frames + [x], []);
    assert h1.frames[i] == h.frames[i];
    assert i < |h.frames| - 1 ==> h1.frames[i + 1] == h.frames[i + 1];
  }

  /** Outside the window nothing depends on what comes next. */
  lemma FragmentedBeforeWindow(h: History, x: Frame)
    requires !Inside(h.frames)
    ensures FragmentedSamples(History(h.frames + [x], [])) ==
            (if x.nonSync then FragmentedSamples(h) else []) + [FragmentedNew(x)]
  {
    StartAfter(h.frames, x);
    var n, h1 := |h.frames|, History(h.frames + [x], []);
    if x.nonSync {
      var a, b, start := FragmentedSamples(h), FragmentedSamples(h1), StartOf(h.frames);
      forall k | 0 <= k < |a| ensures b[k] == a[k] {
        SampleAfterFrame(h, x, start + k);
      }
      SameUntilLast(a, b, FragmentedSample(h1, n));
    } else {
      assert FragmentedSamples(h1) == [] + [FragmentedSample(h1, n)];
    }
  }

  lemma SameUntilLast(a: seq<Sample>, b: seq<Sample>, z: Sample)
    requires |b| == |a| + 1 && (forall k :: 0 <= k < |a| ==> b[k] == a[k]) && b[|a|] == z
    ensures b == a + [z]
  {
  }

  lemma SplitAtLast(a: seq<Sample>, b: seq<Sample>, duration: nat, z: Sample)
    requires a != [] && |b| == |a| + 1
    requires forall k :: 0 <= k < |a| - 1 ==> b[k] == a[k]
    requires b[|a| - 1] == a[|a| - 1].(duration := duration) && b[|a|] == z
    ensures b == WithLastDuration(a, duration) + [z]
  {
  }

  lemma FragmentedInWindow(h: History, x: Frame)
    requires Inside(h.frames) && h.frames[|h.frames| - 1].dts >= 0 && x.dts >= 0
    ensures FragmentedSamples(h) != []
    ensures FragmentedSamples(History(h.frames + [x], [])) ==
            WithLastDuration(FragmentedSamples(h), Clip(x.dts - h.frames[|h.frames| - 1].dts)) + [FragmentedNew(x)]
  {
    var a, b, start := FragmentedSamples(h), FragmentedSamples(History(h.frames + [x], [])), StartOf(h.frames);
    StartAfter(h.frames, x);
    forall k | 0 <= k < |a| - 1 ensures b[k] == a[k] {
      SampleAfterFrame(h, x, start + k);
    }
    SampleAfterFrame(h, x, |h.frames| - 1);
    assert b[|a|] == FragmentedSample(History(h.frames + [x], []), |h.frames|) == FragmentedNew(x);
    SplitAtLast(a, b, Clip(x.dts - h.frames[|h.frames| - 1].dts), FragmentedNew(x));
  }

  lemma OrderedPrefix(frames: seq<Frame>, x: Frame)
    requires Ordered(frames + [x])
    ensures Ordered(frames)
    ensures Inside(frames) ==> frames[|frames| - 1].dts >= 0 && x.dts >= 0
  {
    var all := frames + [x];
    assert frames == all[..|frames|];
    if Inside(frames) {
      LastIsInside(frames);
      assert all[|frames| - 1].dts <= all[|frames|].dts;
    }
  }

  lemma FragmentedAfterFinal(h: History, dts: int)
    requires Ordered(h.frames) && Inside(h.frames)
    ensures FragmentedSamples(h) != []
    ensures FragmentedSamples(h.(final := [dts])) ==
            WithLastDuration(FragmentedSamples(h), Clip(dts - h.frames[|h.frames| - 1].dts))
  {
    LastIsInside(h.frames);
    LastSampleAfterFinal(h, dts);
  }

  lemma LastSampleAfterFinal(h: History, dts: int)
    requires h.frames != [] && h.frames[|h.frames| - 1].dts >= 0
    ensures FragmentedSamples(h) != []
    ensures FragmentedSamples(h.(final := [dts])) ==
            WithLastDuration(FragmentedSamples(h), Clip(dts - h.frames[|h.frames| - 1].dts))
  {
    var n, start := |h.frames|, StartOf(h.frames);
    var a, b := FragmentedSamples(h), FragmentedSamples(h.(final := [dts]));
    forall k | 0 <= k < |a| - 1 ensures b[k] == a[k] {
      assert b[k] == FragmentedSample(h.(final := [dts]), start + k) == FragmentedSample(h, start + k);
    }
    assert b[|a| - 1] == FragmentedSample(h.(final := [dts]), n - 1) ==
           FragmentedSample(h, n - 1).(duration := Clip(dts - h.frames[n - 1].dts));
    assert b == WithLastDuration(a, Clip(dts - h.frames[n - 1].dts));
  }

  lemma FinalOutsideIsIgnored(h: History, dts: int)
    requires !Inside(h.frames)
    ensures FragmentedSamples(h.(final := [dts])) == FragmentedSamples(h)
  {
    assert forall i :: 0 <= i < |h.frames| ==> FragmentedSample(h.(final := [dts]), i) == FragmentedSample(h, i);
  }

  // One track of the fragmented muxer

  /** `fragments` have been written, the rest is in the buffer of `t`. */
  ghost predicate Agrees(t: Track, fragments: seq<PartTrack>, h: History) {
    && t.Valid()
    && (t.Started() <==> Inside(h.frames))
    && (t.Started() ==> t.lastDTS == h.frames[|h.frames| - 1].dts)
    && (!t.Started() ==> fragments == [])
    && SamplesOf(fragments) + t.samples == FragmentedSamples(h)
  }

  lemma LastDurationOfSum(a: seq<Sample>, b: seq<Sample>, duration: nat)
    requires b != []
    ensures WithLastDuration(a + b, duration) == a + WithLastDuration(b, duration)
  {
  }

  lemma BufferAgreesInside(t: Track, fragments: seq<PartTrack>, h: History, x: Frame)
    requires Agrees(t, fragments, h) && Ordered(h.frames + [x]) && t.Started()
    ensures Agrees(Buffer(t, x), fragments, History(h.frames + [x], []))
  {
    StartAfter(h.frames, x);
    OrderedPrefix(h.frames, x);
    FragmentedInWindow(h, x);
    LastDurationOfSum(SamplesOf(fragments), t.samples, Clip(x.dts - t.lastDTS));
  }

  lemma BufferAgrees(t: Track, fragments: seq<PartTrack>, h: History, x: Frame)
    requires Agrees(t, fragments, h) && Ordered(h.frames + [x])
    ensures Agrees(Buffer(t, x), fragments, History(h.frames + [x], []))
  {
    if t.Started() {
      BufferAgreesInside(t, fragments, h, x);
    } else {
      StartAfter(h.frames, x);
      FragmentedBeforeWindow(h, x);
      assert SamplesOf(fragments) == [];
    }
  }

  lemma FinalAgrees(t: Track, fragments: seq<PartTrack>, h: History, dts: int)
    requires Agrees(t, fragments, h) && Ordered(h.frames)
    ensures Agrees(FinalDTS(t, dts), fragments, h.(final := [dts]))
  {
    if t.Started() {
      FragmentedAfterFinal(h, dts);
      LastDurationOfSum(SamplesOf(fragments), t.samples, Clip(dts - t.lastDTS));
    } else {
      FinalOutsideIsIgnored(h, dts);
    }
  }

  lemma SamplesOfOneMore(fragments: seq<PartTrack>, f: PartTrack)
    ensures SamplesOf(fragments + [f]) == SamplesOf(fragments) + f.samples
  {
    assert (fragments + [f])[..|fragments|] == fragments;
  }

  lemma FlushAgrees(track: nat, t: Track, fragments: seq<PartTrack>, h: History)
    requires Agrees(t, fragments, h) && Ordered(h.frames) && Leaves(t, false)
    ensures Agrees(Remaining(t, false), fragments + [Outgoing(track, t, false)], h)
  {
    SamplesOfOneMore(fragments, Outgoing(track, t, false));
    assert t.samples == t.samples[..|t.samples| - 1] + t.samples[|t.samples| - 1..];
    LastIsInside(h.frames);
  }

  // All tracks of the fragmented muxer

  lemma InPartOneMore(tracks: seq<PartTrack>, p: PartTrack, track: nat)
    ensures InPart(tracks + [p], track) == InPart(tracks, track) + if p.track == track then [p] else []
  {
    assert (tracks + [p])[..|tracks|] == tracks;
  }

  lemma {:induction false} OutgoingOf(tracks: seq<Track>, final: bool, track: nat)
    ensures InPart(OutgoingTracks(tracks, final), track) ==
            if track < |tracks| && Leaves(tracks[track], final) then [Outgoing(track, tracks[track], final)] else []
  {
    if tracks != [] {
      var i := |tracks| - 1;
      OutgoingOf(tracks[..i], final, track);
      if Leaves(tracks[i], final) {
        InPartOneMore(OutgoingTracks(tracks[..i], final), Outgoing(i, tracks[i], final), track);
      } else {
        assert OutgoingTracks(tracks, final) == OutgoingTracks(tracks[..i], final);
      }
    }
  }

  lemma FragmentsOfOneMore(out: seq<Box>, box: Box, track: nat)
    ensures FragmentsOf(out + [box], track) ==
            FragmentsOf(out, track) + if box.Init? then [] else InPart(box.tracks, track)
  {
    assert (out + [box])[..|out|] == out;
  }

  lemma FragmentsOfOutput(out: seq<Box>, init: bool, number: nat, parts: seq<PartTrack>, track: nat)
    ensures FragmentsOf(out + (if init then [Init] else []) + [Part(number, parts)], track) ==
            FragmentsOf(out, track) + InPart(parts, track)
  {
    if init {
      FragmentsOfOneMore(out, Init, track);
      FragmentsOfOneMore(out + [Init], Part(number, parts), track);
    } else {
      assert out + [] == out;
      FragmentsOfOneMore(out, Part(number, parts), track);
    }
  }

  lemma FlushEmits(s: State, final: bool, track: nat)
    requires track < |s.tracks|
    ensures FragmentsOf(InnerFlush(s, final).out, track) ==
            FragmentsOf(s.out, track) +
            if Leaves(s.tracks[track], final) then [Outgoing(track, s.tracks[track], final)] else []
  {
    OutgoingOf(s.tracks, final, track);
    FragmentsOfOutput(s.out, s.initPending, s.number, OutgoingTracks(s.tracks, final), track);
  }

  ghost predicate TrackAgrees(s: State, calls: seq<Call>, track: nat)
    requires track < |s.tracks|
  {
    Agrees(s.tracks[track], FragmentsOf(s.out, track), HistoryOf(calls, track))
  }

  lemma InnerFlushAgrees(s: State, track: nat, h: History)
    requires track < |s.tracks| && Ordered(h.frames)
    requires Agrees(s.tracks[track], FragmentsOf(s.out, track), h)
    ensures Agrees(InnerFlush(s, false).tracks[track], FragmentsOf(InnerFlush(s, false).out, track), h)
  {
    FlushEmits(s, false, track);
    assert InnerFlush(s, false).tracks[track] == Remaining(s.tracks[track], false);
    assert FragmentsOf(s.out, track) + [] == FragmentsOf(s.out, track);
    if Leaves(s.tracks[track], false) {
      FlushAgrees(track, s.tracks[track], FragmentsOf(s.out, track), h);
    }
  }

  lemma PrefixOrdered(calls: seq<Call>, track: nat)
    requires calls != [] && Ordered(HistoryOf(calls, track).frames)
    ensures Ordered(HistoryOf(calls[..|calls| - 1], track).frames)
  {
    var call := calls[|calls| - 1];
    if call.WriteSample? && call.track == track {
      OrderedPrefix(HistoryOf(calls[..|calls| - 1], track).frames, call.frame);
    }
  }

  function HistoryAfter(h: History, call: Call, track: nat): History {
    if call.track != track then h
    else if call.WriteSample? then History(h.frames + [call.frame], [])
    else h.(final := [call.dts])
  }

  lemma WriteAgrees(s: State, u: nat, x: Frame, track: nat, h: History)
    requires s.Valid() && u < |s.tracks| && track < |s.tracks|
    requires Agrees(s.tracks[track], FragmentsOf(s.out, track), h)
    requires Ordered(HistoryAfter(h, WriteSample(u, x), track).frames)
    ensures Agrees(Write(s, u, x).tracks[track], FragmentsOf(Write(s, u, x).out, track),
                   HistoryAfter(h, WriteSample(u, x), track))
  {
    var s1 := s.(tracks := s.tracks[u := Buffer(s.tracks[u], x)]);
    if u == track {
      BufferAgrees(s.tracks[u], FragmentsOf(s.out, track), h, x);
    }
    InnerFlushAgrees(s1, track, HistoryAfter(h, WriteSample(u, x), track));
  }

  lemma StepAgrees(s: State, call: Call, track: nat, h: History)
    requires s.Valid() && call.track < |s.tracks| && track < |s.tracks|
    requires Agrees(s.tracks[track], FragmentsOf(s.out, track), h)
    requires Ordered(HistoryAfter(h, call, track).frames)
    ensures Agrees(Step(s, call).tracks[track], FragmentsOf(Step(s, call).out, track), HistoryAfter(h, call, track))
  {
    match call
    case WriteSample(u, x) => WriteAgrees(s, u, x, track, h);
    case WriteFinalDTS(u, dts) =>
      if u == track {
        FinalAgrees(s.tracks[u], FragmentsOf(s.out, track), h, dts);
      }
  }

  /** At any time: what has been written of a track, followed by what is buffered, is what has to be written. */
  lemma {:induction false} RunAgrees(timeScales: seq<nat>, calls: seq<Call>, track: nat)
    requires Proper(calls, |timeScales|) && track < |timeScales| && Ordered(HistoryOf(calls, track).frames)
    ensures TrackAgrees(Run(timeScales, calls), calls, track)
  {
    if calls != [] {
      var call, before := calls[|calls| - 1], calls[..|calls| - 1];
      PrefixOrdered(calls, track);
      RunAgrees(timeScales, before, track);
      StepAgrees(Run(timeScales, before), call, track, HistoryOf(before, track));
    }
  }

  /**
   * The fragments of a track, after the last flush, hold exactly the frames that had to be written, each once and in
   * order; nothing is written for a track without a frame in the window.
   */
  lemma FragmentsHoldTheFrames(timeScales: seq<nat>, calls: seq<Call>, track: nat)
    requires Proper(calls, |timeScales|) && track < |timeScales| && Ordered(HistoryOf(calls, track).frames)
    ensures
      var h := HistoryOf(calls, track);
      SamplesOf(FragmentsOf(InnerFlush(Run(timeScales, calls), true).out, track)) ==
      if Inside(h.frames) then FragmentedSamples(h) else []
  {
    var s := Run(timeScales, calls);
    RunAgrees(timeScales, calls, track);
    FlushEmits(s, true, track);
    if Leaves(s.tracks[track], true) {
      SamplesOfOneMore(FragmentsOf(s.out, track), Outgoing(track, s.tracks[track], true));
    }
  }

  // The single-file muxer

  function FileNew(x: Frame): Sample {
    Sample(if x.nonSync then x.ptsOffset else 0, x.nonSync, 0, x.payload)
  }

  lemma FileSampleAfterFrame(h: History, x: Frame, i: nat)
    requires i < |h.frames|
    ensures FileSample(History(h.frames + [x], []), i) ==
      if i < |h.frames| - 1 then FileSample(h, i) else FileSample(h, i).(duration := Clip(x.dts - h.frames[i].dts))
  {
    var h1 := History(h.frames + [x], []);
    assert h1.frames[i] == h.frames[i];
    assert i < |h.frames| - 1 ==> h1.frames[i + 1] == h.frames[i + 1];
  }

  lemma FileAfterFrame(h: History, x: Frame)
    requires h.frames != [] && (Inside(h.frames) || x.nonSync)
    ensures FileSamples(h) != []
    ensures FileSamples(History(h.frames + [x], [])) ==
            WithLastDuration(FileSamples(h), Clip(x.dts - h.frames[|h.frames| - 1].dts)) + [FileNew(x)]
  {
    var a, b, start := FileSamples(h), FileSamples(History(h.frames + [x], [])), StartOf(h.frames);
    StartAfter(h.frames, x);
    forall k | 0 <= k < |a| - 1 ensures b[k] == a[k] {
      FileSampleAfterFrame(h, x, start + k);
    }
    FileSampleAfterFrame(h, x, |h.frames| - 1);
    assert b[|a|] == FileSample(History(h.frames + [x], []), |h.frames|) == FileNew(x);
    SplitAtLast(a, b, Clip(x.dts - h.frames[|h.frames| - 1].dts), FileNew(x));
  }

  lemma FileAfterSync(h: History, x: Frame)
    requires h.frames == [] || (!Inside(h.frames) && !x.nonSync)
    ensures StartOf(h.frames + [x]) == |h.frames|
    ensures FileSamples(History(h.frames + [x], [])) == [FileNew(x)]
  {
    StartAfter(h.frames, x);
    assert FileSample(History(h.frames + [x], []), |h.frames|) == FileNew(x);
  }

  lemma FileAfterFinal(h: History, dts: int)
    requires h.frames != []
    ensures FileSamples(h) != []
    ensures FileSamples(h.(final := [dts])) ==
            WithLastDuration(FileSamples(h), Clip(dts - h.frames[|h.frames| - 1].dts))
  {
    var h1, n := h.(final := [dts]), |h.frames|;
    assert FileSample(h1, n - 1) == FileSample(h, n - 1).(duration := Clip(dts - h.frames[n - 1].dts));
    assert forall i :: 0 <= i < n - 1 ==> FileSample(h1, i) == FileSample(h, i);
  }

  predicate FileAgrees(t: FileTrack, h: History) {
    if h.frames == [] then t == NEW_FILE_TRACK
    else
      && t.samples == FileSamples(h)
      && t.lastDTS == h.frames[|h.frames| - 1].dts
      && t.timeOffset == Int32(h.frames[StartOf(h.frames)].dts)
  }

  lemma FileWriteAgrees(t: FileTrack, h: History, x: Frame)
    requires FileAgrees(t, h) && Ordered(h.frames + [x])
    ensures FileAgrees(FileWrite(t, x), History(h.frames + [x], []))
  {
    OrderedPrefix(h.frames, x);
    StartAfter(h.frames, x);
    if h.frames != [] {
      LastIsInside(h.frames);
      assert (h.frames + [x])[|h.frames| - 1].dts <= (h.frames + [x])[|h.frames|].dts;
    }
    if h.frames == [] || (!Inside(h.frames) && !x.nonSync) {
      FileAfterSync(h, x);
    } else {
      FileAfterFrame(h, x);
    }
  }

  /** The file holds exactly the frames that had to be written, and starts at the time of the first one. */
  lemma {:induction false} FileHoldsTheFrames(calls: seq<Call>, track: nat)
    requires FinalAfterSample(calls) && Ordered(HistoryOf(calls, track).frames)
    ensures FileAgrees(FileRun(calls, track), HistoryOf(calls, track))
  {
    if calls != [] {
      var call, before := calls[|calls| - 1], calls[..|calls| - 1];
      assert forall i :: 0 <= i < |before| ==> before[..i] == calls[..i];
      PrefixOrdered(calls, track);
      FileHoldsTheFrames(before, track);
      var h := HistoryOf(before, track);
      if call.track == track {
        match call
        case WriteSample(_, x) => FileWriteAgrees(FileRun(before, track), h, x);
        case WriteFinalDTS(_, dts) => FileAfterFinal(h, dts);
      }
    }
  }
}
