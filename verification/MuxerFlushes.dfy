/** When the fragmented muxer writes a fragment, and how long samples last (playback/muxer_fmp4.go, muxer_mp4.go). */
module MuxerFlushes {
  import opened Timestamps
  import opened MuxerSpec
  import opened MuxerResults

  // Flushing

  lemma {:induction false} SomethingLeaves(tracks: seq<Track>, i: nat)
    requires i < |tracks| && Leaves(tracks[i], false)
    ensures OutgoingTracks(tracks, false) != []
  {
    if i < |tracks| - 1 { SomethingLeaves(tracks[..|tracks| - 1], i); }
  }

  predicate AllInTime(s: State) {
    s.Valid() && forall t <- s.tracks :: t.timeScale > 0 && InTime(t)
  }

  /** The frame is in the window, and a second or more after the first one that its track has in its buffer. */
  predicate CompletesSecond(t: Track, x: Frame) {
    x.dts >= 0 && t.Started() && x.dts - t.firstDTS >= t.timeScale
  }

  lemma WriteFlushesExactlyWhen(s: State, u: nat, x: Frame)
    requires AllInTime(s) && u < |s.tracks|
    ensures Write(s, u, x).out != s.out <==> CompletesSecond(s.tracks[u], x)
  {
    var t := Buffer(s.tracks[u], x);
    PartTicksIsTimeScale(t.timeScale);
    if CompletesSecond(s.tracks[u], x) {
      var s1 := s.(tracks := s.tracks[u := t]);
      SomethingLeaves(s1.tracks, u);
      assert |InnerFlush(s1, false).out| > |s.out|;
    }
  }

  lemma {:induction false} RunKeepsTimeScales(timeScales: seq<nat>, calls: seq<Call>)
    requires Proper(calls, |timeScales|)
    ensures forall i :: 0 <= i < |timeScales| ==> Run(timeScales, calls).tracks[i].timeScale == timeScales[i]
  {
    if calls != [] {
      var before, call := calls[..|calls| - 1], calls[|calls| - 1];
      RunKeepsTimeScales(timeScales, before);
      StepKeepsTimeScales(Run(timeScales, before), call);
    }
  }

  lemma StepKeepsTimeScales(s: State, call: Call)
    requires s.Valid() && call.track < |s.tracks|
    ensures forall i :: 0 <= i < |s.tracks| ==> Step(s, call).tracks[i].timeScale == s.tracks[i].timeScale
  {
  }

  /**
   * Over any run: a call writes a fragment if and only if it brings a frame of the window that is a second or more
   * after the first frame that its track has in its buffer. No other call writes anything.
   */
  lemma FlushesExactlyWhen(timeScales: seq<nat>, calls: seq<Call>, call: Call)
    requires Proper(calls, |timeScales|) && call.track < |timeScales| && forall r <- timeScales :: r > 0
    ensures var s := Run(timeScales, calls);
      var t := s.tracks[call.track];
      Step(s, call).out != s.out <==>
        call.WriteSample? && call.frame.dts >= 0 && t.Started() && call.frame.dts - t.firstDTS >= timeScales[call.track]
  {
    BuffersStayShort(timeScales, calls);
    RunKeepsTimeScales(timeScales, calls);
    if call.WriteSample? {
      WriteFlushesExactlyWhen(Run(timeScales, calls), call.track, call.frame);
    }
  }

  // Durations

  /** A frame lasts until the next one of its track, or until the final DTS given after the last one. */
  predicate HasNext(h: History, i: nat)
    requires i < |h.frames|
  {
    i + 1 < |h.frames| || h.final != []
  }

  function NextDTS(h: History, i: nat): int
    requires i < |h.frames| && HasNext(h, i)
  {
    if i + 1 < |h.frames| then h.frames[i + 1].dts else h.final[0]
  }

  /**
   * In both outputs: a frame of the window lasts until the next one, if 32 bits can hold that; it has no duration if
   * nothing follows or what follows is earlier.
   */
  lemma DurationsReachNext(h: History, i: nat)
    requires StartOf(h.frames) <= i < |h.frames| && h.frames[i].dts >= 0
    ensures var k := i - StartOf(h.frames);
      && FragmentedSamples(h)[k].duration == FileSamples(h)[k].duration
      && (!HasNext(h, i) || NextDTS(h, i) <= h.frames[i].dts ==> FileSamples(h)[k].duration == 0)
      && (HasNext(h, i) && 0 <= NextDTS(h, i) - h.frames[i].dts < 0x1_0000_0000 ==>
            FileSamples(h)[k].duration == NextDTS(h, i) - h.frames[i].dts)
  {
    var k := i - StartOf(h.frames);
    assert FragmentedSamples(h)[k] == FragmentedSample(h, i) && FileSamples(h)[k] == FileSample(h, i);
  }
}
