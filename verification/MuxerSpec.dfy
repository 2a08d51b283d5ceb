/**
 * The two muxers of the playback server (playback/muxer_fmp4.go, playback/muxer_mp4.go) on values. Both are fed with
 * the same calls; one writes fragments as it goes, the other one writes a single file at the end.
 */
module MuxerSpec {
  import opened Timestamps

  /** What the caller knows about a frame: DTS in ticks, relative to the start of the requested window. */
  datatype Frame = Frame(dts: int, ptsOffset: int, nonSync: bool, payload: nat)

  datatype Call = WriteSample(track: nat, frame: Frame) | WriteFinalDTS(track: nat, dts: int)

  /** A frame as written to the output. */
  datatype Sample = Sample(ptsOffset: int, nonSync: bool, duration: nat, payload: nat)

  const TWO_32 := 0x1_0000_0000

  function Clip(diff: int): nat {
    (if diff < 0 then 0 else diff) % TWO_32
  }

  function WithLastDuration(samples: seq<Sample>, duration: nat): seq<Sample>
    requires samples != []
  {
    samples[|samples| - 1 := samples[|samples| - 1].(duration := duration)]
  }

  // The fragmented muxer

  datatype Track = Track(timeScale: nat, firstDTS: int, lastDTS: int, samples: seq<Sample>)
  {
    predicate Started() { firstDTS >= 0 }

    predicate Valid() { Started() ==> samples != [] }
  }

  datatype PartTrack = PartTrack(track: nat, baseTime: int, samples: seq<Sample>)

  datatype Box = Init | Part(number: nat, tracks: seq<PartTrack>)

  datatype State = State(tracks: seq<Track>, initPending: bool, number: nat, out: seq<Box>)
  {
    predicate Valid() { forall t <- tracks :: t.Valid() }
  }

  /** One second. */
  const PART_DURATION := SECOND

  function PartTicks(timeScale: nat): int {
    ToTicks(PART_DURATION, timeScale)
  }

  function NewTrack(timeScale: nat): Track {
    Track(timeScale, -1, 0, [])
  }

  function Start(timeScales: seq<nat>): State {
    State(seq(|timeScales|, i requires 0 <= i < |timeScales| => NewTrack(timeScales[i])), true, 0, [])
  }

  /** `writeSample` up to the flush. */
  function Buffer(t: Track, x: Frame): (r: Track)
    requires t.Valid()
    ensures r.Valid()
  {
    if x.dts >= 0 then
      var sample := Sample(x.ptsOffset, x.nonSync, 0, x.payload);
      if !t.Started() then
        t.(firstDTS := x.dts, lastDTS := x.dts, samples := (if x.nonSync then t.samples else []) + [sample])
      else
        t.(lastDTS := x.dts, samples := WithLastDuration(t.samples, Clip(x.dts - t.lastDTS)) + [sample])
    else
      var sample := Sample(0, x.nonSync, 0, x.payload);
      t.(samples := (if x.nonSync then t.samples else []) + [sample])
  }

  function FinalDTS(t: Track, dts: int): (r: Track)
    requires t.Valid()
    ensures r.Valid()
  {
    if t.Started() then t.(samples := WithLastDuration(t.samples, Clip(dts - t.lastDTS))) else t
  }

  predicate Leaves(t: Track, final: bool) {
    t.Started() && (|t.samples| > 1 || (final && |t.samples| != 0))
  }

  /** What a flush takes out of a track: all but the last sample, whose duration may still change. */
  function Outgoing(track: nat, t: Track, final: bool): PartTrack
    requires Leaves(t, final)
  {
    PartTrack(track, t.firstDTS, if final then t.samples else t.samples[..|t.samples| - 1])
  }

  function Remaining(t: Track, final: bool): Track {
    if Leaves(t, final) && !final
    then t.(samples := t.samples[|t.samples| - 1..], firstDTS := t.lastDTS)
    else t
  }

  function OutgoingTracks(tracks: seq<Track>, final: bool): seq<PartTrack> {
    if tracks == [] then []
    else
      var i := |tracks| - 1;
      OutgoingTracks(tracks[..i], final) + if Leaves(tracks[i], final) then [Outgoing(i, tracks[i], final)] else []
  }

  function InnerFlush(s: State, final: bool): State {
    var parts := OutgoingTracks(s.tracks, final);
    var s1 := s.(tracks := seq(|s.tracks|, i requires 0 <= i < |s.tracks| => Remaining(s.tracks[i], final)));
    if parts == [] then s1
    else
      s1.(initPending := false, number := (s.number + 1) % TWO_32,
          out := s.out + (if s.initPending then [Init] else []) + [Part(s.number, parts)])
  }

  predicate IsLong(t: Track) {
    t.lastDTS - t.firstDTS >= PartTicks(t.timeScale)
  }

  function Write(s: State, track: nat, x: Frame): State
    requires s.Valid() && track < |s.tracks|
  {
    var t := Buffer(s.tracks[track], x);
    var s1 := s.(tracks := s.tracks[track := t]);
    if x.dts >= 0 && IsLong(t) then InnerFlush(s1, false) else s1
  }

  function Step(s: State, call: Call): (r: State)
    requires s.Valid() && call.track < |s.tracks|
    ensures r.Valid() && |r.tracks| == |s.tracks|
  {
    match call
    case WriteSample(track, frame) => Write(s, track, frame)
    case WriteFinalDTS(track, dts) => s.(tracks := s.tracks[track := FinalDTS(s.tracks[track], dts)])
  }

  predicate Proper(calls: seq<Call>, tracks: nat) {
    forall call <- calls :: call.track < tracks
  }

  function Run(timeScales: seq<nat>, calls: seq<Call>): (r: State)
    requires Proper(calls, |timeScales|)
    ensures r.Valid() && |r.tracks| == |timeScales|
  {
    if calls == [] then Start(timeScales)
    else Step(Run(timeScales, calls[..|calls| - 1]), calls[|calls| - 1])
  }

  // The single-file muxer

  datatype FileTrack = FileTrack(timeOffset: int, lastDTS: int, samples: seq<Sample>)

  const NEW_FILE_TRACK := FileTrack(0, 0, [])

  /** The cast to `int32`. */
  function Int32(x: int): int {
    (x + TWO_32 / 2) % TWO_32 - TWO_32 / 2
  }

  function FileWrite(t: FileTrack, x: Frame): FileTrack {
    var before := if (x.dts < 0 || t.lastDTS < 0) && !x.nonSync then [] else t.samples;
    var sample := Sample(if x.nonSync then x.ptsOffset else 0, x.nonSync, 0, x.payload);
    if before == [] then FileTrack(Int32(x.dts), x.dts, [sample])
    else FileTrack(t.timeOffset, x.dts, WithLastDuration(before, Clip(x.dts - t.lastDTS)) + [sample])
  }

  /** A final DTS is given after at least one sample. */
  function FileFinalDTS(t: FileTrack, dts: int): FileTrack
    requires t.samples != []
  {
    t.(samples := WithLastDuration(t.samples, Clip(dts - t.lastDTS)))
  }

  // What the caller asked for, track by track

  /** All frames given for a track, and the last final DTS given after the last one. */
  datatype History = History(frames: seq<Frame>, final: seq<int>)

  function HistoryOf(calls: seq<Call>, track: nat): History {
    if calls == [] then History([], [])
    else
      var h := HistoryOf(calls[..|calls| - 1], track);
      var call := calls[|calls| - 1];
      if call.track != track then h
      else
        match call
        case WriteSample(_, frame) => History(h.frames + [frame], [])
        case WriteFinalDTS(_, dts) => h.(final := [dts])
  }

  /** A final DTS is only given after a sample: the caller does so after each run of samples. */
  predicate FinalAfterSample(calls: seq<Call>) {
    forall i :: 0 <= i < |calls| && calls[i].WriteFinalDTS? ==> HistoryOf(calls[..i], calls[i].track).frames != []
  }

  function FileRun(calls: seq<Call>, track: nat): (t: FileTrack)
    requires FinalAfterSample(calls)
    ensures HistoryOf(calls, track).frames != [] ==> t.samples != []
  {
    if calls == [] then NEW_FILE_TRACK
    else
      var before := calls[..|calls| - 1];
      assert forall i :: 0 <= i < |before| ==> before[..i] == calls[..i];
      var call, t := calls[|calls| - 1], FileRun(before, track);
      if call.track != track then t
      else
        match call
        case WriteSample(_, frame) => FileWrite(t, frame)
        case WriteFinalDTS(_, dts) => FileFinalDTS(t, dts)
  }

  predicate Ordered(frames: seq<Frame>) {
    forall i, j :: 0 <= i < j < |frames| ==> frames[i].dts <= frames[j].dts
  }

  /** A frame inside the window is followed by the next one in less than 2^32 ticks. */
  predicate SmallGaps(frames: seq<Frame>) {
    forall i :: 0 < i < |frames| && frames[i - 1].dts >= 0 ==> frames[i].dts - frames[i - 1].dts < TWO_32
  }

  /** The index of the first frame that is inside the window, or the number of frames. */
  function FirstInside(frames: seq<Frame>): (i: nat)
    ensures i <= |frames|
    ensures forall j :: 0 <= j < i ==> frames[j].dts < 0
    ensures i < |frames| ==> frames[i].dts >= 0
  {
    if frames == [] then 0
    else
      var n := |frames| - 1;
      var i := FirstInside(frames[..n]);
      if i < n || frames[n].dts >= 0 then i else n + 1
  }

  /** The last sync frame before `n`, or 0. */
  function LastSyncBefore(frames: seq<Frame>, n: nat): (i: nat)
    requires n <= |frames|
    ensures i <= n && (n > 0 ==> i < n)
    ensures n > 0 && i > 0 ==> !frames[i].nonSync
    ensures forall j :: i < j < n ==> frames[j].nonSync
  {
    if n == 0 then 0
    else if !frames[n - 1].nonSync then n - 1
    else LastSyncBefore(frames, n - 1)
  }

  /**
   * The frame that decoding has to start from: the first frame of the window if it is a sync frame, otherwise the last
   * sync frame before it (or, when there is none, the first frame of all).
   */
  function StartOf(frames: seq<Frame>): (i: nat)
    ensures i <= |frames| && (frames != [] ==> i < |frames|)
  {
    var inside := FirstInside(frames);
    if inside < |frames| && !frames[inside].nonSync then inside else LastSyncBefore(frames, inside)
  }

  /** The time from a frame to what follows it. */
  function DurationAt(h: History, i: nat): nat
    requires i < |h.frames|
  {
    if i + 1 < |h.frames| then Clip(h.frames[i + 1].dts - h.frames[i].dts)
    else if h.final != [] then Clip(h.final[0] - h.frames[i].dts)
    else 0
  }

  /** The frames from `StartOf` on, as the fragmented muxer has to write them. */
  function FragmentedSamples(h: History): seq<Sample> {
    var start := StartOf(h.frames);
    seq(|h.frames| - start, i requires 0 <= i < |h.frames| - start => FragmentedSample(h, start + i))
  }

  function FragmentedSample(h: History, i: nat): Sample
    requires i < |h.frames|
  {
    var x := h.frames[i];
    if x.dts < 0 then Sample(0, x.nonSync, 0, x.payload)
    else Sample(x.ptsOffset, x.nonSync, DurationAt(h, i), x.payload)
  }

  /** The frames from `StartOf` on, as the single-file muxer has to write them. */
  function FileSamples(h: History): seq<Sample> {
    var start := StartOf(h.frames);
    seq(|h.frames| - start, i requires 0 <= i < |h.frames| - start => FileSample(h, start + i))
  }

  function FileSample(h: History, i: nat): Sample
    requires i < |h.frames|
  {
    var x := h.frames[i];
    Sample(if x.nonSync then x.ptsOffset else 0, x.nonSync, DurationAt(h, i), x.payload)
  }

  // What has been written, track by track

  function InPart(tracks: seq<PartTrack>, track: nat): seq<PartTrack> {
    if tracks == [] then []
    else
      InPart(tracks[..|tracks| - 1], track) +
      if tracks[|tracks| - 1].track == track then [tracks[|tracks| - 1]] else []
  }

  /** All fragments of a track. */
  function FragmentsOf(out: seq<Box>, track: nat): seq<PartTrack> {
    if out == [] then []
    else
      FragmentsOf(out[..|out| - 1], track) +
      match out[|out| - 1]
      case Init => []
      case Part(_, tracks) => InPart(tracks, track)
  }

  function SamplesOf(fragments: seq<PartTrack>): seq<Sample> {
    if fragments == [] then [] else SamplesOf(fragments[..|fragments| - 1]) + fragments[|fragments| - 1].samples
  }

  function Length(samples: seq<Sample>): nat {
    if samples == [] then 0 else Length(samples[..|samples| - 1]) + samples[|samples| - 1].duration
  }
}
