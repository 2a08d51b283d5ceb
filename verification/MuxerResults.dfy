/** What the two playback muxers promise about whole outputs. */
module MuxerResults {
  import opened Timestamps
  import opened MuxerSpec
  import opened MuxerProofs

  // The same frames

  predicate SameFrames(a: seq<Sample>, b: seq<Sample>) {
    |a| == |b| && forall k :: 0 <= k < |a| ==> a[k].payload == b[k].payload && a[k].nonSync == b[k].nonSync
  }

  /** The frames of the window are given the same duration in `a` and `b`, which start with the frame at `StartOf`. */
  predicate SameDurationsInside(frames: seq<Frame>, a: seq<Sample>, b: seq<Sample>) {
    && |a| == |b| == |frames| - StartOf(frames)
    && forall k :: 0 <= k < |a| && frames[StartOf(frames) + k].dts >= 0 ==> a[k].duration == b[k].duration
  }

  lemma SamplesAgree(h: History)
    requires h.frames != []
    ensures FileSamples(h) != [] && SameFrames(FragmentedSamples(h), FileSamples(h))
    ensures SameDurationsInside(h.frames, FragmentedSamples(h), FileSamples(h))
  {
    var start := StartOf(h.frames);
    assert forall k :: 0 <= k < |h.frames| - start ==>
      FragmentedSamples(h)[k] == FragmentedSample(h, start + k) && FileSamples(h)[k] == FileSample(h, start + k);
  }

  /** The output of the fragmented muxer for a track, after the last flush. */
  function FragmentedOutput(timeScales: seq<nat>, calls: seq<Call>, track: nat): seq<PartTrack>
    requires Proper(calls, |timeScales|)
  {
    FragmentsOf(InnerFlush(Run(timeScales, calls), true).out, track)
  }

  /**
   * Given the same calls, both muxers output the same frames in the same order exactly when the track has a frame in
   * the window or no frame at all; then the frames of the window also have the same duration.
   */
  lemma BothKeepTheSameFrames(timeScales: seq<nat>, calls: seq<Call>, track: nat)
    requires Proper(calls, |timeScales|) && FinalAfterSample(calls)
    requires track < |timeScales| && Ordered(HistoryOf(calls, track).frames)
    ensures
      var frames := HistoryOf(calls, track).frames;
      var fragmented, file := SamplesOf(FragmentedOutput(timeScales, calls, track)), FileRun(calls, track).samples;
      && (SameFrames(fragmented, file) <==> Inside(frames) || frames == [])
      && (Inside(frames) ==> SameDurationsInside(frames, fragmented, file))
  {
    FragmentsHoldTheFrames(timeScales, calls, track);
    FileHoldsTheFrames(calls, track);
    var h := HistoryOf(calls, track);
    if h.frames != [] {
      SamplesAgree(h);
    }
  }

  // Time in fragments

  lemma LengthOneMore(samples: seq<Sample>, s: Sample)
    ensures Length(samples + [s]) == Length(samples) + s.duration
  {
    assert (samples + [s])[..|samples|] == samples;
  }

  predicate Gapless(fragments: seq<PartTrack>) {
    forall i :: 0 < i < |fragments| ==>
      fragments[i].baseTime == fragments[i - 1].baseTime + Length(fragments[i - 1].samples)
  }

  /** The time at which the next fragment has to start. */
  function EndOf(fragments: seq<PartTrack>): int
    requires fragments != []
  {
    fragments[|fragments| - 1].baseTime + Length(fragments[|fragments| - 1].samples)
  }

  /** The fragments follow each other and reach up to this time. */
  predicate Joined(fragments: seq<PartTrack>, time: int) {
    Gapless(fragments) && (fragments != [] ==> EndOf(fragments) == time)
  }

  /** Frames of the window that are not decoded after this time follow each other in less than 2^32 ticks. */
  predicate SmallGapsUpTo(frames: seq<Frame>, time: int) {
    forall i :: 0 < i < |frames| && frames[i - 1].dts >= 0 && frames[i].dts <= time ==>
      frames[i].dts - frames[i - 1].dts < TWO_32
  }

  predicate SmallGapsFrom(frames: seq<Frame>, time: int) {
    forall i :: 0 < i < |frames| && frames[i - 1].dts >= time ==> frames[i].dts - frames[i - 1].dts < TWO_32
  }

  /** What has been written reaches the buffer, and the buffer its last sample, exactly as far as gaps are small. */
  predicate OnTime(t: Track, fragments: seq<PartTrack>, frames: seq<Frame>) {
    if t.Started() then
      && t.samples != [] && Inside(frames) && t.lastDTS == frames[|frames| - 1].dts
      && frames[FirstInside(frames)].dts == (if fragments == [] then t.firstDTS else fragments[0].baseTime)
      && IsTimeOf(frames, t.firstDTS)
      && (Joined(fragments, t.firstDTS) <==> SmallGapsUpTo(frames, t.firstDTS))
      && BufferReaches(t, frames)
    else
      fragments == [] && Length(t.samples) == 0 && !Inside(frames)
  }

  predicate IsTimeOf(frames: seq<Frame>, time: int) {
    exists i :: 0 <= i < |frames| && frames[i].dts == time
  }

  predicate BufferReaches(t: Track, frames: seq<Frame>)
    requires t.samples != []
  {
    var end := t.firstDTS + Length(t.samples[..|t.samples| - 1]);
    end <= t.lastDTS && (end == t.lastDTS <==> SmallGapsFrom(frames, t.firstDTS))
  }

  lemma ClipIsExactWhen(gap: nat)
    ensures Clip(gap) <= gap && (Clip(gap) == gap <==> gap < TWO_32)
  {
  }

  /** One more frame at the end, not before the others. */
  lemma GapsUpToOneMore(frames: seq<Frame>, x: Frame, time: int)
    requires frames != [] && time <= frames[|frames| - 1].dts <= x.dts
    ensures SmallGapsUpTo(frames + [x], time) <==> SmallGapsUpTo(frames, time)
  {
    var all := frames + [x];
    assert forall i :: 0 <= i < |frames| ==> all[i] == frames[i];
    if SmallGapsUpTo(all, time) {
      forall i | 0 < i < |frames| && frames[i - 1].dts >= 0 && frames[i].dts <= time
        ensures frames[i].dts - frames[i - 1].dts < TWO_32
      {
        assert all[i].dts - all[i - 1].dts < TWO_32;
      }
    }
  }

  lemma GapsFromOneMore(frames: seq<Frame>, x: Frame, time: int)
    requires frames != [] && time <= frames[|frames| - 1].dts <= x.dts
    ensures SmallGapsFrom(frames + [x], time) <==>
            SmallGapsFrom(frames, time) && x.dts - frames[|frames| - 1].dts < TWO_32
  {
    var all, n := frames + [x], |frames|;
    assert forall i :: 0 <= i < n ==> all[i] == frames[i];
    if SmallGapsFrom(all, time) {
      forall i | 0 < i < n && frames[i - 1].dts >= time ensures frames[i].dts - frames[i - 1].dts < TWO_32 {
        assert all[i].dts - all[i - 1].dts < TWO_32;
      }
      assert all[n].dts - all[n - 1].dts < TWO_32;
    }
  }

  lemma BufferReachesFurther(t: Track, frames: seq<Frame>, x: Frame)
    requires t.Started() && t.samples != [] && frames != [] && t.lastDTS == frames[|frames| - 1].dts
    requires BufferReaches(t, frames) && t.firstDTS <= t.lastDTS && Ordered(frames + [x]) && x.dts >= 0
    ensures BufferReaches(Buffer(t, x), frames + [x])
  {
    var all := frames + [x];
    assert all[|frames| - 1].dts <= all[|frames|].dts;
    var front, gap := t.samples[..|t.samples| - 1], x.dts - t.lastDTS;
    var samples := WithLastDuration(t.samples, Clip(gap));
    assert samples == front + [samples[|samples| - 1]];
    LengthOneMore(front, samples[|samples| - 1]);
    assert Buffer(t, x).samples[..|t.samples|] == samples;
    ClipIsExactWhen(gap);
    GapsFromOneMore(frames, x, t.firstDTS);
  }

  lemma BufferInsideOnTime(t: Track, fragments: seq<PartTrack>, frames: seq<Frame>, x: Frame)
    requires OnTime(t, fragments, frames) && t.Started() && Ordered(frames + [x]) && x.dts >= 0
    ensures OnTime(Buffer(t, x), fragments, frames + [x])
  {
    assert (frames + [x])[..|frames|] == frames;
    StartAfter(frames, x);
    TimeIsNotLater(frames, t.firstDTS);
    BufferReachesFurther(t, frames, x);
    assert (frames + [x])[|frames| - 1].dts <= (frames + [x])[|frames|].dts;
    GapsUpToOneMore(frames, x, t.firstDTS);
    var i :| 0 <= i < |frames| && frames[i].dts == t.firstDTS;
    assert (frames + [x])[i].dts == t.firstDTS;
  }

  lemma TimeIsNotLater(frames: seq<Frame>, time: int)
    requires IsTimeOf(frames, time) && (forall i :: 0 <= i < |frames| ==> frames[i].dts <= frames[|frames| - 1].dts)
    ensures time <= frames[|frames| - 1].dts
  {
  }

  lemma NothingBuffered(samples: seq<Sample>, s: Sample)
    requires Length(samples) == 0 && s.duration == 0
    ensures Length(samples + [s]) == 0 && Length([s]) == 0 && Length((samples + [s])[..|samples|]) == 0
  {
    LengthOneMore(samples, s);
    assert (samples + [s])[..|samples|] == samples;
    LengthOneMore([], s);
    assert [] + [s] == [s];
  }

  /** The gaps of a window that has just been entered. */
  lemma NoGapsYet(frames: seq<Frame>, x: Frame)
    requires !Inside(frames) && x.dts >= 0
    ensures SmallGapsUpTo(frames + [x], x.dts) && SmallGapsFrom(frames + [x], x.dts)
    ensures IsTimeOf(frames + [x], x.dts)
  {
    var all := frames + [x];
    assert all[|frames|] == x;
    assert forall i :: 0 <= i < |frames| ==> all[i] == frames[i] && frames[i].dts < 0;
  }

  lemma BufferFirstOnTime(t: Track, frames: seq<Frame>, x: Frame)
    requires OnTime(t, [], frames) && !t.Started() && x.dts >= 0
    ensures OnTime(Buffer(t, x), [], frames + [x])
  {
    assert (frames + [x])[..|frames|] == frames && (frames + [x])[|frames|] == x;
    StartAfter(frames, x);
    NoGapsYet(frames, x);
    NothingBuffered(t.samples, Sample(x.ptsOffset, x.nonSync, 0, x.payload));
  }

  lemma BufferOutsideOnTime(t: Track, frames: seq<Frame>, x: Frame)
    requires OnTime(t, [], frames) && !t.Started() && x.dts < 0
    ensures OnTime(Buffer(t, x), [], frames + [x])
  {
    StartAfter(frames, x);
    NothingBuffered(t.samples, Sample(0, x.nonSync, 0, x.payload));
    NothingBuffered([], Sample(0, x.nonSync, 0, x.payload));
    assert [] + [Sample(0, x.nonSync, 0, x.payload)] == [Sample(0, x.nonSync, 0, x.payload)];
  }

  lemma BufferOnTime(t: Track, fragments: seq<PartTrack>, frames: seq<Frame>, x: Frame)
    requires OnTime(t, fragments, frames) && Ordered(frames + [x])
    ensures OnTime(Buffer(t, x), fragments, frames + [x])
  {
    if t.Started() {
      OrderedPrefix(frames, x);
      BufferInsideOnTime(t, fragments, frames, x);
    } else if x.dts >= 0 {
      BufferFirstOnTime(t, frames, x);
    } else {
      BufferOutsideOnTime(t, frames, x);
    }
  }

  lemma FinalOnTime(t: Track, fragments: seq<PartTrack>, frames: seq<Frame>, dts: int)
    requires OnTime(t, fragments, frames)
    ensures OnTime(FinalDTS(t, dts), fragments, frames)
  {
    if t.Started() {
      var samples := FinalDTS(t, dts).samples;
      assert samples[..|samples| - 1] == t.samples[..|samples| - 1];
    }
  }

  lemma LastFragmentFollows(fragments: seq<PartTrack>, f: PartTrack)
    ensures Gapless(fragments + [f]) <==> Joined(fragments, f.baseTime)
  {
    var all := fragments + [f];
    assert forall i :: 0 <= i < |fragments| ==> all[i] == fragments[i];
    if Gapless(all) {
      forall i | 0 < i < |fragments|
        ensures fragments[i].baseTime == fragments[i - 1].baseTime + Length(fragments[i - 1].samples)
      {
        assert all[i].baseTime == all[i - 1].baseTime + Length(all[i - 1].samples);
      }
      if fragments != [] {
        assert all[|fragments|].baseTime == all[|fragments| - 1].baseTime + Length(all[|fragments| - 1].samples);
      }
    }
  }

  /** Small up to a time that is one of the frames, and small from there on. */
  lemma GapsSplit(frames: seq<Frame>, time: int)
    requires Ordered(frames) && IsTimeOf(frames, time) && time >= 0
    ensures var last := frames[|frames| - 1].dts;
      && (SmallGapsUpTo(frames, last) <==> SmallGapsUpTo(frames, time) && SmallGapsFrom(frames, time))
      && SmallGapsFrom(frames, last)
  {
    var n := |frames|;
    forall i | 0 <= i < n ensures frames[i].dts <= frames[n - 1].dts {
      assert i < n - 1 ==> frames[i].dts <= frames[n - 1].dts;
    }
    var b :| 0 <= b < n && frames[b].dts == time;
    forall i | 0 < i < n ensures frames[i].dts <= time || frames[i - 1].dts >= time {
      assert i < b ==> frames[i].dts <= frames[b].dts;
      assert b < i - 1 ==> frames[b].dts <= frames[i - 1].dts;
    }
  }

  lemma FlushOnTime(track: nat, t: Track, fragments: seq<PartTrack>, frames: seq<Frame>)
    requires OnTime(t, fragments, frames) && Ordered(frames) && Leaves(t, false)
    ensures OnTime(Remaining(t, false), fragments + [Outgoing(track, t, false)], frames)
  {
    var f := Outgoing(track, t, false);
    LastIsInside(frames);
    LastFragmentFollows(fragments, f);
    GapsSplit(frames, t.firstDTS);
    assert (fragments + [f])[|fragments|] == f;
    assert Joined(fragments + [f], t.lastDTS) <==>
      Joined(fragments, f.baseTime) && f.baseTime + Length(f.samples) == t.lastDTS;
  }

  ghost predicate TrackOnTime(s: State, calls: seq<Call>, track: nat)
    requires track < |s.tracks|
  {
    OnTime(s.tracks[track], FragmentsOf(s.out, track), HistoryOf(calls, track).frames)
  }

  lemma InnerFlushOnTime(s: State, track: nat, frames: seq<Frame>)
    requires track < |s.tracks| && Ordered(frames)
    requires OnTime(s.tracks[track], FragmentsOf(s.out, track), frames)
    ensures OnTime(InnerFlush(s, false).tracks[track], FragmentsOf(InnerFlush(s, false).out, track), frames)
  {
    FlushEmits(s, false, track);
    assert InnerFlush(s, false).tracks[track] == Remaining(s.tracks[track], false);
    assert FragmentsOf(s.out, track) + [] == FragmentsOf(s.out, track);
    if Leaves(s.tracks[track], false) {
      FlushOnTime(track, s.tracks[track], FragmentsOf(s.out, track), frames);
    }
  }

  /** The state of `writeSample` before it flushes. */
  function Buffered(s: State, u: nat, x: Frame): State
    requires s.Valid() && u < |s.tracks|
  {
    s.(tracks := s.tracks[u := Buffer(s.tracks[u], x)])
  }

  lemma BufferedOnTime(s: State, u: nat, x: Frame, track: nat, frames: seq<Frame>)
    requires s.Valid() && u < |s.tracks| && track < |s.tracks|
    requires OnTime(s.tracks[track], FragmentsOf(s.out, track), frames)
    requires u == track ==> Ordered(frames + [x])
    ensures OnTime(Buffered(s, u, x).tracks[track], FragmentsOf(s.out, track),
                   if u == track then frames + [x] else frames)
  {
    if u == track { BufferOnTime(s.tracks[u], FragmentsOf(s.out, track), frames, x); }
  }

  lemma WriteOnTime(s: State, u: nat, x: Frame, track: nat, h: History)
    requires s.Valid() && u < |s.tracks| && track < |s.tracks|
    requires OnTime(s.tracks[track], FragmentsOf(s.out, track), h.frames)
    requires Ordered(HistoryAfter(h, WriteSample(u, x), track).frames)
    ensures OnTime(Write(s, u, x).tracks[track], FragmentsOf(Write(s, u, x).out, track),
                   HistoryAfter(h, WriteSample(u, x), track).frames)
  {
    var frames := HistoryAfter(h, WriteSample(u, x), track).frames;
    BufferedOnTime(s, u, x, track, h.frames);
    if Write(s, u, x) != Buffered(s, u, x) { InnerFlushOnTime(Buffered(s, u, x), track, frames); }
  }

  lemma StepOnTime(s: State, call: Call, track: nat, h: History)
    requires s.Valid() && call.track < |s.tracks| && track < |s.tracks|
    requires OnTime(s.tracks[track], FragmentsOf(s.out, track), h.frames)
    requires Ordered(HistoryAfter(h, call, track).frames)
    ensures OnTime(Step(s, call).tracks[track], FragmentsOf(Step(s, call).out, track),
                   HistoryAfter(h, call, track).frames)
  {
    match call
    case WriteSample(u, x) => WriteOnTime(s, u, x, track, h);
    case WriteFinalDTS(u, dts) =>
      if u == track {
        FinalOnTime(s.tracks[u], FragmentsOf(s.out, track), h.frames, dts);
      }
  }

  lemma {:induction false} RunOnTime(timeScales: seq<nat>, calls: seq<Call>, track: nat)
    requires Proper(calls, |timeScales|) && track < |timeScales| && Ordered(HistoryOf(calls, track).frames)
    ensures TrackOnTime(Run(timeScales, calls), calls, track)
  {
    if calls != [] {
      var before := calls[..|calls| - 1];
      PrefixOrdered(calls, track);
      RunOnTime(timeScales, before, track);
      StepOnTime(Run(timeScales, before), calls[|calls| - 1], track, HistoryOf(before, track));
    }
  }

  /**
   * Each fragment of a track starts where the one before ends if and only if no frame of the window that comes before
   * the last fragment is followed by the next one in 2^32 ticks or more; the first fragment always starts with the
   * first frame of the window.
   */
  lemma FragmentsHaveNoGapExactlyWhen(timeScales: seq<nat>, calls: seq<Call>, track: nat)
    requires Proper(calls, |timeScales|) && track < |timeScales| && Ordered(HistoryOf(calls, track).frames)
    ensures
      var fragments := FragmentedOutput(timeScales, calls, track);
      var frames := HistoryOf(calls, track).frames;
      && (fragments != [] <==> Inside(frames))
      && (fragments != [] ==> fragments[0].baseTime == frames[FirstInside(frames)].dts)
      && (Gapless(fragments) <==>
          fragments == [] || SmallGapsUpTo(frames, fragments[|fragments| - 1].baseTime))
  {
    var s := Run(timeScales, calls);
    RunOnTime(timeScales, calls, track);
    FlushEmits(s, true, track);
    var fragments := FragmentsOf(s.out, track);
    assert Leaves(s.tracks[track], true) <==> s.tracks[track].Started();
    if s.tracks[track].Started() {
      LastFragmentFollows(fragments, Outgoing(track, s.tracks[track], true));
    }
  }

  /** When a frame is decoded in fragments. */
  function FragmentedTime(frames: seq<Frame>, i: nat): int
    requires i < |frames| && Inside(frames)
  {
    frames[if i < FirstInside(frames) then FirstInside(frames) else i].dts
  }

  lemma FragmentedTimeStep(h: History, i: nat)
    requires Inside(h.frames) && 0 < i < |h.frames|
    requires h.frames[i - 1].dts >= 0 ==> FirstInside(h.frames) < i
    requires FirstInside(h.frames) < i ==> 0 <= h.frames[i - 1].dts <= h.frames[i].dts < h.frames[i - 1].dts + TWO_32
    ensures FragmentedTime(h.frames, i) == FragmentedTime(h.frames, i - 1) + FragmentedSample(h, i - 1).duration
  {
  }

  lemma OrderedStep(frames: seq<Frame>, i: nat)
    requires Inside(frames) && Ordered(frames) && SmallGaps(frames) && 0 < i < |frames|
    ensures frames[i - 1].dts >= 0 ==> FirstInside(frames) < i
    ensures FirstInside(frames) < i ==> 0 <= frames[i - 1].dts <= frames[i].dts < frames[i - 1].dts + TWO_32
  {
    assert frames[i - 1].dts <= frames[i].dts;
    if FirstInside(frames) < i - 1 {
      assert frames[FirstInside(frames)].dts <= frames[i - 1].dts;
    }
  }

  lemma LengthUpTo(h: History, k: nat)
    requires 0 < k < |FragmentedSamples(h)|
    ensures Length(FragmentedSamples(h)[..k]) ==
            Length(FragmentedSamples(h)[..k - 1]) + FragmentedSample(h, StartOf(h.frames) + k - 1).duration
  {
    var samples := FragmentedSamples(h);
    assert samples[..k] == samples[..k - 1] + [samples[k - 1]];
    LengthOneMore(samples[..k - 1], samples[k - 1]);
    assert samples[k - 1] == FragmentedSample(h, StartOf(h.frames) + (k - 1));
  }

  /** In fragments a frame of the window is decoded at its DTS, one before the window with the first one in it. */
  predicate DecodedInTime(h: History, k: nat)
    requires Inside(h.frames) && k < |FragmentedSamples(h)|
  {
    h.frames[FirstInside(h.frames)].dts + Length(FragmentedSamples(h)[..k]) ==
    FragmentedTime(h.frames, StartOf(h.frames) + k)
  }

  lemma FirstIsInTime(h: History)
    requires Inside(h.frames) && |FragmentedSamples(h)| > 0
    ensures DecodedInTime(h, 0)
  {
    StartNotAfterWindow(h.frames);
  }

  lemma NextIsInTime(h: History, k: nat)
    requires Inside(h.frames) && 0 < k < |FragmentedSamples(h)| && DecodedInTime(h, k - 1)
    requires var i := StartOf(h.frames) + k;
      FragmentedTime(h.frames, i) == FragmentedTime(h.frames, i - 1) + FragmentedSample(h, i - 1).duration
    ensures DecodedInTime(h, k)
  {
    LengthUpTo(h, k);
  }

  lemma {:induction false} FragmentedTimes(h: History, k: nat)
    requires Inside(h.frames) && Ordered(h.frames) && SmallGaps(h.frames) && k < |FragmentedSamples(h)|
    ensures DecodedInTime(h, k)
  {
    if k == 0 {
      FirstIsInTime(h);
    } else {
      FragmentedTimes(h, k - 1);
      OrderedStep(h.frames, StartOf(h.frames) + k);
      FragmentedTimeStep(h, StartOf(h.frames) + k);
      NextIsInTime(h, k);
    }
  }

  lemma StartNotAfterWindow(frames: seq<Frame>)
    ensures StartOf(frames) <= FirstInside(frames)
  {
  }

  lemma {:induction false} LengthOfSum(a: seq<Sample>, b: seq<Sample>)
    ensures Length(a + b) == Length(a) + Length(b)
  {
    if b == [] {
      assert a + b == a;
    } else {
      LengthOfSum(a, b[..|b| - 1]);
      assert (a + b)[..|a + b| - 1] == a + b[..|b| - 1];
    }
  }

  lemma {:induction false} SamplesOfPrefix(fragments: seq<PartTrack>, i: nat)
    requires i < |fragments|
    ensures SamplesOf(fragments[..i]) + fragments[i].samples <= SamplesOf(fragments)
  {
    var n := |fragments| - 1;
    if i < n {
      SamplesOfPrefix(fragments[..n], i);
      assert fragments[..n][..i] == fragments[..i];
    }
  }

  lemma {:induction false} BaseTimesAddUp(fragments: seq<PartTrack>, i: nat)
    requires Gapless(fragments) && i < |fragments|
    ensures fragments[i].baseTime == fragments[0].baseTime + Length(SamplesOf(fragments[..i]))
  {
    if i > 0 {
      BaseTimesAddUp(fragments, i - 1);
      assert fragments[..i][..i - 1] == fragments[..i - 1];
      LengthOfSum(SamplesOf(fragments[..i - 1]), fragments[i - 1].samples);
    }
  }

  /** Sample `j` of fragment `i` is the sample at this position of the whole output. */
  lemma SampleInOutput(fragments: seq<PartTrack>, i: nat, j: nat) returns (k: nat)
    requires Gapless(fragments) && i < |fragments| && j < |fragments[i].samples|
    ensures k == |SamplesOf(fragments[..i])| + j < |SamplesOf(fragments)|
    ensures SamplesOf(fragments)[k] == fragments[i].samples[j]
    ensures fragments[i].baseTime + Length(fragments[i].samples[..j]) ==
            fragments[0].baseTime + Length(SamplesOf(fragments)[..k])
  {
    k := |SamplesOf(fragments[..i])| + j;
    SamplesOfPrefix(fragments, i);
    BaseTimesAddUp(fragments, i);
    LengthOfSum(SamplesOf(fragments[..i]), fragments[i].samples[..j]);
    assert SamplesOf(fragments)[..k] == SamplesOf(fragments[..i]) + fragments[i].samples[..j];
  }

  predicate SampleInTime(h: History, fragments: seq<PartTrack>, i: nat, j: nat)
    requires i < |fragments| && j < |fragments[i].samples|
  {
    var k := StartOf(h.frames) + |SamplesOf(fragments[..i])| + j;
    && Inside(h.frames) && k < |h.frames| && fragments[i].samples[j].payload == h.frames[k].payload
    && fragments[i].baseTime + Length(fragments[i].samples[..j]) == FragmentedTime(h.frames, k)
  }

  lemma TimesOfFragments(h: History, fragments: seq<PartTrack>, i: nat, j: nat)
    requires i < |fragments| && j < |fragments[i].samples| && Gapless(fragments)
    requires Inside(h.frames) && Ordered(h.frames) && SmallGaps(h.frames)
    requires SamplesOf(fragments) == FragmentedSamples(h)
    requires fragments[0].baseTime == h.frames[FirstInside(h.frames)].dts
    ensures SampleInTime(h, fragments, i, j)
  {
    var k := SampleInOutput(fragments, i, j);
    FragmentedTimes(h, k);
    PayloadAt(h, k);
  }

  lemma PayloadAt(h: History, k: nat)
    requires k < |FragmentedSamples(h)|
    ensures StartOf(h.frames) + k < |h.frames|
    ensures FragmentedSamples(h)[k].payload == h.frames[StartOf(h.frames) + k].payload
  {
    assert FragmentedSamples(h)[k] == FragmentedSample(h, StartOf(h.frames) + k);
  }

  /**
   * In the output of the fragmented muxer each sample, counted from the base time of its own fragment, is decoded at
   * the DTS of its frame, or with the first frame of the window if it precedes it.
   */
  lemma FragmentedOutputTimes(timeScales: seq<nat>, calls: seq<Call>, track: nat, i: nat, j: nat)
    requires Proper(calls, |timeScales|) && track < |timeScales|
    requires Ordered(HistoryOf(calls, track).frames) && SmallGaps(HistoryOf(calls, track).frames)
    requires var fragments := FragmentedOutput(timeScales, calls, track);
      i < |fragments| && j < |fragments[i].samples|
    ensures SampleInTime(HistoryOf(calls, track), FragmentedOutput(timeScales, calls, track), i, j)
  {
    FragmentsHaveNoGapExactlyWhen(timeScales, calls, track);
    FragmentsHoldTheFrames(timeScales, calls, track);
    TimesOfFragments(HistoryOf(calls, track), FragmentedOutput(timeScales, calls, track), i, j);
  }

  // Time in a file

  predicate AllGapsSmall(frames: seq<Frame>) {
    forall i :: 0 < i < |frames| ==> frames[i].dts - frames[i - 1].dts < TWO_32
  }

  /** In a file every frame is decoded at its DTS, before the window or in it. */
  lemma {:induction false} FileTimes(h: History, k: nat)
    requires Ordered(h.frames) && AllGapsSmall(h.frames) && k < |FileSamples(h)|
    ensures h.frames[StartOf(h.frames)].dts + Length(FileSamples(h)[..k]) == h.frames[StartOf(h.frames) + k].dts
  {
    if k > 0 {
      var samples, i := FileSamples(h), StartOf(h.frames) + k;
      FileTimes(h, k - 1);
      assert samples[..k] == samples[..k - 1] + [samples[k - 1]];
      LengthOneMore(samples[..k - 1], samples[k - 1]);
      assert samples[k - 1] == FileSample(h, i - 1);
      assert h.frames[i - 1].dts <= h.frames[i].dts;
    }
  }

  lemma CastIsExactWhen(x: int)
    ensures Int32(x) == x <==> -TWO_32 / 2 <= x < TWO_32 / 2
  {
  }

  /** The decoding time of sample `k` of the file is the DTS of its frame. */
  predicate FileSampleInTime(h: History, t: FileTrack, k: nat)
    requires k < |t.samples|
  {
    && StartOf(h.frames) + k < |h.frames| && t.samples[k].payload == h.frames[StartOf(h.frames) + k].payload
    && t.timeOffset + Length(t.samples[..k]) == h.frames[StartOf(h.frames) + k].dts
  }

  lemma TimesOfFile(h: History, t: FileTrack, k: nat)
    requires FileAgrees(t, h) && k < |t.samples| && Ordered(h.frames) && AllGapsSmall(h.frames)
    ensures h.frames != []
    ensures FileSampleInTime(h, t, k) <==>
            -TWO_32 / 2 <= h.frames[StartOf(h.frames)].dts < TWO_32 / 2
  {
    FileTimes(h, k);
    assert FileSamples(h)[k] == FileSample(h, StartOf(h.frames) + k);
    CastIsExactWhen(h.frames[StartOf(h.frames)].dts);
  }

  /**
   * In the output of the single-file muxer each sample is decoded at the DTS of its frame exactly when the first one
   * that is kept has a DTS of 32 bits: the time offset of the track is cast.
   */
  lemma FileOutputTimes(calls: seq<Call>, track: nat, k: nat)
    requires FinalAfterSample(calls) && k < |FileRun(calls, track).samples|
    requires Ordered(HistoryOf(calls, track).frames) && AllGapsSmall(HistoryOf(calls, track).frames)
    ensures
      var h := HistoryOf(calls, track);
      && h.frames != []
      && (FileSampleInTime(h, FileRun(calls, track), k) <==>
          -TWO_32 / 2 <= h.frames[StartOf(h.frames)].dts < TWO_32 / 2)
  {
    FileHoldsTheFrames(calls, track);
    TimesOfFile(HistoryOf(calls, track), FileRun(calls, track), k);
  }

  // Whatever the order of DTS

  lemma PartTicksIsTimeScale(timeScale: nat)
    ensures PartTicks(timeScale) == timeScale
  {
    MultiplyAndDivideExact(PART_DURATION, timeScale, SECOND);
    QuotientUnique(PART_DURATION * timeScale, SECOND, timeScale);
  }

  /** A started track has something in its buffer, and less than a second of it. */
  predicate InTime(t: Track) {
    t.Started() ==> t.samples != [] && t.lastDTS - t.firstDTS < t.timeScale
  }

  lemma StepInTime(s: State, call: Call)
    requires s.Valid() && call.track < |s.tracks| && forall t <- s.tracks :: t.timeScale > 0 && InTime(t)
    ensures forall t <- Step(s, call).tracks :: t.timeScale > 0 && InTime(t)
  {
    var t := s.tracks[call.track];
    PartTicksIsTimeScale(t.timeScale);
    forall i | 0 <= i < |s.tracks|
      ensures Step(s, call).tracks[i].timeScale > 0 && InTime(Step(s, call).tracks[i])
    {
      assert InTime(s.tracks[i]);
      match call
      case WriteSample(u, x) =>
        var s1 := s.(tracks := s.tracks[u := Buffer(t, x)]);
        assert InnerFlush(s1, false).tracks[i] == Remaining(s1.tracks[i], false);
      case WriteFinalDTS(u, dts) =>
    }
  }

  /** No buffer grows beyond one second, and none that has been started is empty, in whatever order DTS come. */
  lemma {:induction false} BuffersStayShort(timeScales: seq<nat>, calls: seq<Call>)
    requires Proper(calls, |timeScales|) && forall r <- timeScales :: r > 0
    ensures forall t <- Run(timeScales, calls).tracks :: t.timeScale > 0 && InTime(t)
  {
    if calls != [] {
      BuffersStayShort(timeScales, calls[..|calls| - 1]);
      StepInTime(Run(timeScales, calls[..|calls| - 1]), calls[|calls| - 1]);
    } else {
      forall t <- Run(timeScales, calls).tracks ensures t.timeScale > 0 && InTime(t) {
        var i :| 0 <= i < |timeScales| && t == NewTrack(timeScales[i]);
        assert timeScales[i] in timeScales;
      }
    }
  }

  /** The output is empty, or one header and then numbered parts, none of them empty. */
  ghost predicate WellFormed(s: State) {
    && (s.initPending <==> s.out == [])
    && (s.out == [] ==> s.number == 0)
    && (s.out != [] ==> s.out[0] == Init && s.number == (|s.out| - 1) % TWO_32)
    && forall i :: 0 < i < |s.out| ==> s.out[i].Part? && s.out[i].number == (i - 1) % TWO_32 && s.out[i].tracks != []
  }

  lemma FlushWellFormed(s: State, final: bool)
    requires WellFormed(s)
    ensures WellFormed(InnerFlush(s, final))
  {
    var t := InnerFlush(s, final);
    if OutgoingTracks(s.tracks, final) != [] {
      if s.initPending {
        assert t.out == [Init, Part(0, OutgoingTracks(s.tracks, final))];
      } else {
        assert forall i :: 0 <= i < |s.out| ==> t.out[i] == s.out[i];
        var n := |s.out| - 1;
        assert (n % TWO_32 + 1) % TWO_32 == (n + 1) % TWO_32;
      }
    }
  }

  lemma {:induction false} OutputIsWellFormed(timeScales: seq<nat>, calls: seq<Call>)
    requires Proper(calls, |timeScales|)
    ensures WellFormed(Run(timeScales, calls)) && WellFormed(InnerFlush(Run(timeScales, calls), true))
  {
    if calls != [] {
      var call, before := calls[|calls| - 1], Run(timeScales, calls[..|calls| - 1]);
      OutputIsWellFormed(timeScales, calls[..|calls| - 1]);
      if call.WriteSample? {
        var t := Buffer(before.tracks[call.track], call.frame);
        FlushWellFormed(before.(tracks := before.tracks[call.track := t]), false);
      }
    }
    FlushWellFormed(Run(timeScales, calls), true);
  }
}
