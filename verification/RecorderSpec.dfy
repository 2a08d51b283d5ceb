/**
 * The fMP4 recorder (recorder/format_fmp4*.go) as a state machine on values. A sample is held back by one call, then
 * it goes into the current part of the current segment; parts are flushed into segments, segments into files.
 */
module RecorderSpec {
  import opened Common
  import opened Timestamps

  /** An encoded frame; its contents play no role. */
  type Payload = nat

  datatype Sample = Sample(dts: int, ntp: int, nonSync: bool, duration: nat, payload: Payload)

  datatype Track = Track(timeScale: int, isVideo: bool)

  datatype Config = Config(tracks: seq<Track>, partDuration: int, segmentDuration: int)
  {
    predicate Valid() {
      forall t <- tracks :: 0 < t.timeScale
    }
  }

  const TWO_32 := 0x1_0000_0000

  /** A sample in a part, with its track and with its DTS in nanoseconds. */
  datatype Arrival = Arrival(track: nat, sample: Sample, at: int)

  datatype Part = Part(number: nat, start: int, arrivals: seq<Arrival>)

  /**
   * `start` is the DTS of the sample `first` of track `owner`, in nanoseconds. `parts` have been written to the file;
   * the file exists as soon as there is one. `rolled` tells whether the segment was opened by a rollover.
   */
  datatype Segment = Segment(
    start: int, last: int, owner: nat, first: Sample, rolled: bool, parts: seq<Part>, current: Option<Part>)

  datatype Cause = Rollover | CodecChange | EndOfRecording

  datatype File = File(segment: Segment, cause: Cause)

  datatype State = State(
    hasVideo: bool, pending: seq<Option<Sample>>, segment: Option<Segment>, nextNumber: nat, files: seq<File>)

  datatype Event = Write(track: nat, sample: Sample) | UpdateCodecs

  function Start(c: Config): State {
    State(false, seq(|c.tracks|, i => None), None, 0, [])
  }

  function At(c: Config, track: nat, dts: int): int
    requires c.Valid() && track < |c.tracks|
  {
    ToDuration(dts, c.tracks[track].timeScale)
  }

  /** The held sample, once its successor is known. */
  function Timed(s: Sample, next: Sample): Sample {
    s.(duration := (next.dts - s.dts) % TWO_32)
  }

  function EndOf(p: Part): int
    requires p.arrivals != []
  {
    p.arrivals[|p.arrivals| - 1].at
  }

  function NewSegment(track: nat, first: Sample, start: int, rolled: bool): Segment {
    Segment(start, start, track, first, rolled, [], None)
  }

  /** A part that is missing or long enough is followed by a new one. */
  predicate NeedsPart(c: Config, g: Segment) {
    g.current.None? ||
    (g.current.value.arrivals != [] && EndOf(g.current.value) - g.current.value.start >= c.partDuration)
  }

  function Flushed(g: Segment): Segment {
    if g.current.None? then g else g.(parts := g.parts + [g.current.value], current := None)
  }

  /** `formatFMP4Segment.write` */
  function Put(c: Config, g: Segment, number: nat, a: Arrival): Segment {
    var g1 := g.(last := a.at);
    if NeedsPart(c, g) then Flushed(g1).(current := Some(Part(number, a.at, [a])))
    else g1.(current := Some(g.current.value.(arrivals := g.current.value.arrivals + [a])))
  }

  /** The segment that a sample goes into: the current one, or a new one that starts with it. */
  function Target(s: State, a: Arrival): Segment {
    if s.segment.Some? then s.segment.value else NewSegment(a.track, a.sample, a.at, false)
  }

  predicate TooEarly(s: State, at: int) {
    s.segment.Some? && at < s.segment.value.start
  }

  /** A part is opened for the next sample, and its number is used. */
  function NextNumber(n: nat): nat {
    (n + 1) % TWO_32
  }

  function Accept(c: Config, s: State, a: Arrival): State {
    var g := Target(s, a);
    s.(segment := Some(Put(c, g, s.nextNumber, a)),
       nextNumber := if NeedsPart(c, g) then NextNumber(s.nextNumber) else s.nextNumber)
  }

  predicate RollsOver(c: Config, s: State, track: nat, next: Sample)
    requires c.Valid() && track < |c.tracks| && s.segment.Some?
  {
    && (!s.hasVideo || c.tracks[track].isVideo)
    && !next.nonSync
    && At(c, track, next.dts) - s.segment.value.start >= c.segmentDuration
  }

  function RollOver(c: Config, s: State, track: nat, next: Sample): State
    requires c.Valid() && track < |c.tracks| && s.segment.Some?
  {
    var at := At(c, track, next.dts);
    s.(files := s.files + [File(Flushed(s.segment.value.(last := at)), Rollover)],
       segment := Some(NewSegment(track, next, at, true)))
  }

  /** `formatFMP4Track.write` */
  function DoWrite(c: Config, s: State, track: nat, next: Sample): State
    requires c.Valid() && track < |c.tracks| == |s.pending|
  {
    var s1 := s.(hasVideo := s.hasVideo || c.tracks[track].isVideo, pending := s.pending[track := Some(next)]);
    if s.pending[track].None? then s1
    else
      var held := s.pending[track].value;
      var a := Arrival(track, Timed(held, next), At(c, track, held.dts));
      if TooEarly(s, a.at) then s1
      else
        var s2 := Accept(c, s1, a);
        if RollsOver(c, s2, track, next) then RollOver(c, s2, track, next) else s2
  }

  /** Codec parameters have changed: close the segment if its file already holds the old ones. */
  function DoUpdateCodecs(s: State): State {
    if s.segment.Some? && s.segment.value.parts != []
    then s.(files := s.files + [File(Flushed(s.segment.value), CodecChange)], segment := None)
    else s
  }

  /** The latest DTS among the held samples and `last`. */
  function LatestHeld(c: Config, pending: seq<Option<Sample>>, last: int): int
    requires c.Valid() && |pending| <= |c.tracks|
  {
    if pending == [] then last
    else
      var i := |pending| - 1;
      var before := LatestHeld(c, pending[..i], last);
      if pending[i].Some? && At(c, i, pending[i].value.dts) > before then At(c, i, pending[i].value.dts) else before
  }

  /** `formatFMP4.close` */
  function Close(c: Config, s: State): State
    requires c.Valid() && |s.pending| == |c.tracks|
  {
    if s.segment.None? then s
    else
      var g := s.segment.value;
      s.(files := s.files + [File(Flushed(g.(last := LatestHeld(c, s.pending, g.last))), EndOfRecording)],
         segment := None)
  }

  function Step(c: Config, s: State, e: Event): (t: State)
    requires c.Valid() && |s.pending| == |c.tracks| && (e.Write? ==> e.track < |c.tracks|)
    ensures |t.pending| == |c.tracks|
  {
    match e
    case Write(track, sample) => DoWrite(c, s, track, sample)
    case UpdateCodecs => DoUpdateCodecs(s)
  }

  predicate Proper(c: Config, events: seq<Event>) {
    forall i :: 0 <= i < |events| && events[i].Write? ==> events[i].track < |c.tracks|
  }

  function Run(c: Config, events: seq<Event>): (s: State)
    requires c.Valid() && Proper(c, events)
    ensures |s.pending| == |c.tracks|
  {
    if events == [] then Start(c)
    else Step(c, Run(c, events[..|events| - 1]), events[|events| - 1])
  }

  // What has been recorded

  function OfParts(parts: seq<Part>): seq<Arrival> {
    if parts == [] then [] else OfParts(parts[..|parts| - 1]) + parts[|parts| - 1].arrivals
  }

  function OfSegment(g: Segment): seq<Arrival> {
    OfParts(g.parts) + if g.current.Some? then g.current.value.arrivals else []
  }

  function OfFiles(files: seq<File>): seq<Arrival> {
    if files == [] then [] else OfFiles(files[..|files| - 1]) + OfSegment(files[|files| - 1].segment)
  }

  /** Everything recorded so far, flattened: all samples of all parts of all segments. */
  function Recorded(s: State): seq<Arrival> {
    OfFiles(s.files) + if s.segment.Some? then OfSegment(s.segment.value) else []
  }

  /** All parts of all segments. */
  function PartsOf(g: Segment): seq<Part> {
    g.parts + if g.current.Some? then [g.current.value] else []
  }

  function PartsOfFiles(files: seq<File>): seq<Part> {
    if files == [] then [] else PartsOfFiles(files[..|files| - 1]) + PartsOf(files[|files| - 1].segment)
  }

  function AllParts(s: State): seq<Part> {
    PartsOfFiles(s.files) + if s.segment.Some? then PartsOf(s.segment.value) else []
  }
}
