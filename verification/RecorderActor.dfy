/** The objects of the fMP4 recorder: formatFMP4Part, formatFMP4Segment, and formatFMP4 with its tracks. */
module RecorderActor {
  import opened Common
  import opened Timestamps
  import opened RecorderSpec
  import RecorderSafety

  /** What a part holds for one track: its base time, and its samples in order. */
  datatype PartTrack = PartTrack(baseTime: int, samples: seq<Sample>)

  function SamplesOf(arrivals: seq<Arrival>, track: nat): seq<Sample> {
    if arrivals == [] then []
    else
      SamplesOf(arrivals[..|arrivals| - 1], track) +
      if arrivals[|arrivals| - 1].track == track then [arrivals[|arrivals| - 1].sample] else []
  }

  /** The contents of a part in the form in which they are written, track by track. */
  ghost predicate Holds(c: Config, segmentStart: int, arrivals: seq<Arrival>, tracks: map<nat, PartTrack>)
    requires c.Valid()
  {
    && (forall t <- tracks :: t < |c.tracks| && tracks[t].samples == SamplesOf(arrivals, t))
    && (forall t: nat :: t !in tracks ==> SamplesOf(arrivals, t) == [] && RecorderSafety.FirstOf(arrivals, t).None?)
    && (forall t <- tracks ::
          && RecorderSafety.FirstOf(arrivals, t).Some?
          && tracks[t].baseTime ==
             ToTicks(RecorderSafety.FirstOf(arrivals, t).value.at - segmentStart, c.tracks[t].timeScale))
  }

  function WithOneMore(c: Config, segmentStart: int, tracks: map<nat, PartTrack>, a: Arrival): map<nat, PartTrack>
    requires c.Valid() && a.track < |c.tracks|
  {
    var t := if a.track in tracks then tracks[a.track]
             else PartTrack(ToTicks(a.at - segmentStart, c.tracks[a.track].timeScale), []);
    tracks[a.track := t.(samples := t.samples + [a.sample])]
  }

  lemma HoldsOneMore(
    c: Config, segmentStart: int, arrivals: seq<Arrival>, tracks: map<nat, PartTrack>, a: Arrival)
    requires c.Valid() && a.track < |c.tracks| && Holds(c, segmentStart, arrivals, tracks)
    ensures Holds(c, segmentStart, arrivals + [a], WithOneMore(c, segmentStart, tracks, a))
  {
    assert (arrivals + [a])[..|arrivals|] == arrivals;
    forall t: nat ensures RecorderSafety.FirstOf(arrivals + [a], t) ==
      if RecorderSafety.FirstOf(arrivals, t).Some? then RecorderSafety.FirstOf(arrivals, t)
      else if a.track == t then Some(a) else None
    {
      RecorderSafety.FirstOfConcat(arrivals, a, t);
    }
  }

  class PartObject {
    const number: nat
    const startDTS: int
    const segmentStart: int
    var partTracks: map<nat, PartTrack>
    var endDTS: int
    ghost var arrivals: seq<Arrival>

    ghost function Value(): Part
      reads this
    {
      Part(number, startDTS, arrivals)
    }

    ghost predicate Valid(c: Config)
      requires c.Valid()
      reads this
    {
      && Holds(c, segmentStart, arrivals, partTracks)
      && (arrivals != [] ==> endDTS == EndOf(Value()))
    }

    constructor (c: Config, number: nat, startDTS: int, segmentStart: int)
      requires c.Valid()
      ensures Valid(c) && Value() == Part(number, startDTS, []) && this.segmentStart == segmentStart
    {
      this.number, this.startDTS, this.segmentStart := number, startDTS, segmentStart;
      partTracks, endDTS, arrivals := map[], 0, [];
    }

    method Write(c: Config, track: nat, sample: Sample, dts: int)
      requires c.Valid() && track < |c.tracks| && Valid(c)
      modifies this
      ensures Valid(c) && Value() == old(Value()).(arrivals := old(arrivals) + [Arrival(track, sample, dts)])
    {
      HoldsOneMore(c, segmentStart, arrivals, partTracks, Arrival(track, sample, dts));
      if track !in partTracks {
        partTracks := partTracks[track := PartTrack(ToTicks(dts - segmentStart, c.tracks[track].timeScale), [])];
      }
      var partTrack := partTracks[track];
      partTracks := partTracks[track := partTrack.(samples := partTrack.samples + [sample])];
      assert partTracks == WithOneMore(c, segmentStart, old(partTracks), Arrival(track, sample, dts));
      endDTS := dts;
      arrivals := arrivals + [Arrival(track, sample, dts)];
    }

    method Duration() returns (d: int)
      ensures d == endDTS - startDTS
    {
      d := endDTS - startDTS;
    }
  }

  /** A part as it is written to the file. */
  datatype Written = Written(number: nat, tracks: map<nat, PartTrack>)

  ghost predicate WrittenAs(c: Config, segmentStart: int, parts: seq<Part>, file: seq<Written>)
    requires c.Valid()
  {
    |file| == |parts| && forall i :: 0 <= i < |parts| ==>
      file[i].number == parts[i].number && Holds(c, segmentStart, parts[i].arrivals, file[i].tracks)
  }

  class SegmentObject {
    const startDTS: int
    const startNTP: int
    var curPart: PartObject?
    var lastDTS: int
    var file: seq<Written>
    ghost const origin: Segment
    ghost var parts: seq<Part>

    ghost function Value(): Segment
      reads this, curPart
    {
      origin.(last := lastDTS, parts := parts, current := if curPart == null then None else Some(curPart.Value()))
    }

    ghost predicate Valid(c: Config)
      requires c.Valid()
      reads this, curPart
    {
      && startDTS == origin.start && startNTP == origin.first.ntp
      && WrittenAs(c, startDTS, parts, file)
      && (curPart != null ==> curPart.Valid(c) && curPart.segmentStart == startDTS && curPart.arrivals != [])
    }

    /** The fields given by the caller, then `initialize`. */
    constructor (c: Config, ghost track: nat, first: Sample, startDTS: int, ghost rolled: bool)
      requires c.Valid()
      ensures Valid(c) && Value() == NewSegment(track, first, startDTS, rolled) && curPart == null
    {
      this.startDTS, startNTP, curPart, lastDTS, file := startDTS, first.ntp, null, startDTS, [];
      origin := NewSegment(track, first, startDTS, rolled);
      parts := [];
    }

    /** `formatFMP4Part.close`: the part is appended to the file. */
    method FlushPart(c: Config)
      requires c.Valid() && Valid(c) && curPart != null
      modifies this
      ensures Valid(c) && curPart == null && Value() == Flushed(old(Value()))
    {
      file := file + [Written(curPart.number, curPart.partTracks)];
      parts := parts + [curPart.Value()];
      curPart := null;
    }

    /** It returns the number the next part will get. */
    method Write(c: Config, track: nat, sample: Sample, dts: int, number: nat) returns (next: nat)
      requires c.Valid() && track < |c.tracks| && Valid(c)
      modifies this, curPart
      ensures Valid(c) && Value() == Put(c, old(Value()), number, Arrival(track, sample, dts))
      ensures next == if NeedsPart(c, old(Value())) then NextNumber(number) else number
      ensures curPart != null && (curPart == old(curPart) || fresh(curPart))
    {
      next := number;
      lastDTS := dts;
      if curPart == null {
        curPart := new PartObject(c, number, dts, startDTS);
        next := NextNumber(number);
      } else {
        var duration := curPart.Duration();
        if duration >= c.partDuration {
          FlushPart(c);
          curPart := new PartObject(c, number, dts, startDTS);
          next := NextNumber(number);
        }
      }
      assert [] + [Arrival(track, sample, dts)] == [Arrival(track, sample, dts)];
      curPart.Write(c, track, sample, dts);
    }

    /** `close`: flush what is left; the header of the file gets the duration. */
    method Close(c: Config) returns (o: Output)
      requires c.Valid() && Valid(c)
      modifies this
      ensures Valid(c) && Value() == Flushed(old(Value()))
      ensures OutputOf(c, Value(), o)
    {
      if curPart != null {
        FlushPart(c);
      }
      o := Output(startNTP, lastDTS - startDTS, file);
    }
  }

  /** A closed segment: its duration as written in the header, and its parts. */
  datatype Output = Output(startNTP: int, duration: int, parts: seq<Written>)

  ghost predicate OutputOf(c: Config, g: Segment, o: Output)
    requires c.Valid()
  {
    o.startNTP == g.first.ntp && o.duration == g.last - g.start && WrittenAs(c, g.start, g.parts, o.parts)
  }

  /** The outputs are those of the segments that have a file on disk: it is created for the first part. */
  ghost predicate OutputsOf(c: Config, files: seq<File>, outputs: seq<Output>)
    requires c.Valid()
  {
    if files == [] then outputs == []
    else
      var front, g := files[..|files| - 1], files[|files| - 1].segment;
      if g.parts == [] then OutputsOf(c, front, outputs)
      else
        && outputs != []
        && OutputsOf(c, front, outputs[..|outputs| - 1])
        && OutputOf(c, g, outputs[|outputs| - 1])
  }

  /** A segment that is closed adds its output, if it has a file. */
  lemma OutputsOneMore(c: Config, files: seq<File>, outputs: seq<Output>, f: File, o: Output)
    requires c.Valid() && OutputsOf(c, files, outputs) && OutputOf(c, f.segment, o)
    ensures OutputsOf(c, files + [f], if o.parts != [] then outputs + [o] else outputs)
  {
    assert (files + [f])[..|files|] == files;
    assert (outputs + [o])[..|outputs|] == outputs;
  }

  class Recorder {
    const c: Config
    var hasVideo: bool
    var nextSamples: seq<Option<Sample>>
    var currentSegment: SegmentObject?
    var nextSequenceNumber: nat
    var outputs: seq<Output>
    ghost var files: seq<File>

    ghost function Repr(): set<object>
      reads this, currentSegment
    {
      {this} + if currentSegment == null then {}
               else {currentSegment} + if currentSegment.curPart == null then {} else {currentSegment.curPart}
    }

    ghost function Value(): State
      reads this, currentSegment, if currentSegment == null then {} else {currentSegment.curPart}
    {
      State(hasVideo, nextSamples, if currentSegment == null then None else Some(currentSegment.Value()),
            nextSequenceNumber, files)
    }

    ghost predicate Valid()
      reads this, currentSegment, if currentSegment == null then {} else {currentSegment.curPart}
    {
      && c.Valid() && |nextSamples| == |c.tracks|
      && (currentSegment != null ==> currentSegment.Valid(c))
      && OutputsOf(c, files, outputs)
    }

    constructor (c: Config)
      requires c.Valid()
      ensures Valid() && Value() == Start(c) && this.c == c && fresh(Repr())
    {
      this.c := c;
      hasVideo, nextSamples, currentSegment, nextSequenceNumber := false, seq(|c.tracks|, i => None), null, 0;
      outputs, files := [], [];
    }

    /** Close the current segment, which has a file if it has a part. */
    method CloseSegment(ghost cause: Cause)
      requires Valid() && currentSegment != null
      modifies this, currentSegment
      ensures Valid() && currentSegment == null
      ensures Value() == old(Value()).(
        files := old(files) + [File(Flushed(old(Value()).segment.value), cause)], segment := None)
    {
      var o := currentSegment.Close(c);
      OutputsOneMore(c, files, outputs, File(currentSegment.Value(), cause), o);
      if o.parts != [] {
        outputs := outputs + [o];
      }
      files := files + [File(currentSegment.Value(), cause)];
      currentSegment := null;
    }

    /** The middle of `formatFMP4Track.write`: a sample whose duration is known goes into the current segment. */
    method Accept(track: nat, s: Sample, dts: int)
      requires Valid() && track < |c.tracks|
      modifies Repr()
      ensures Valid() && currentSegment != null && fresh(Repr() - old(Repr()))
      ensures Value() == RecorderSpec.Accept(c, old(Value()), Arrival(track, s, dts))
    {
      if currentSegment == null {
        currentSegment := new SegmentObject(c, track, s, dts, false);
      }
      nextSequenceNumber := currentSegment.Write(c, track, s, dts, nextSequenceNumber);
    }

    /** The end of `formatFMP4Track.write`: a new segment starts with the sample that is held. */
    method RollOver(track: nat, sample: Sample)
      requires Valid() && track < |c.tracks| && currentSegment != null
      modifies Repr()
      ensures Valid() && fresh(Repr() - old(Repr()))
      ensures Value() == RecorderSpec.RollOver(c, old(Value()), track, sample)
    {
      var nextDTS := ToDuration(sample.dts, c.tracks[track].timeScale);
      currentSegment.lastDTS := nextDTS;
      CloseSegment(Rollover);
      currentSegment := new SegmentObject(c, track, sample, nextDTS, true);
    }

    /** The beginning of `formatFMP4Track.write`: the sample takes the place of the one that was held. */
    method Hold(track: nat, sample: Sample) returns (held: Option<Sample>)
      requires Valid() && track < |c.tracks|
      modifies this`hasVideo, this`nextSamples
      ensures Valid() && held == old(nextSamples)[track]
      ensures Value() == old(Value()).(
        hasVideo := old(hasVideo) || c.tracks[track].isVideo, pending := old(nextSamples)[track := Some(sample)])
    {
      if c.tracks[track].isVideo {
        hasVideo := true;
      }
      held := nextSamples[track];
      nextSamples := nextSamples[track := Some(sample)];
    }

    /** `formatFMP4Track.write`, for a sample that follows another one. */
    method WriteHeld(track: nat, s: Sample, dts: int, next: Sample)
      requires Valid() && track < |c.tracks|
      requires currentSegment == null || dts >= currentSegment.startDTS
      modifies Repr()
      ensures Valid() && fresh(Repr() - old(Repr()))
      ensures
        var before := RecorderSpec.Accept(c, old(Value()), Arrival(track, s, dts));
        Value() == if RollsOver(c, before, track, next) then RecorderSpec.RollOver(c, before, track, next) else before
    {
      Accept(track, s, dts);
      var nextDTS := ToDuration(next.dts, c.tracks[track].timeScale);
      if (!hasVideo || c.tracks[track].isVideo) && !next.nonSync &&
         nextDTS - currentSegment.startDTS >= c.segmentDuration {
        RollOver(track, next);
      }
    }

    /** `formatFMP4Track.write` */
    method Write(track: nat, sample: Sample)
      requires Valid() && track < |c.tracks|
      modifies Repr()
      ensures Valid() && fresh(Repr() - old(Repr()))
      ensures Value() == DoWrite(c, old(Value()), track, sample)
    {
      var held := Hold(track, sample);
      if held.Some? {
        var s := Timed(held.value, sample);
        var dts := At(c, track, held.value.dts);
        assert TooEarly(old(Value()), dts) <==> currentSegment != null && dts < currentSegment.startDTS;
        if currentSegment == null || dts - currentSegment.startDTS >= 0 {
          WriteHeld(track, s, dts, sample);
        }
      }
    }

    method UpdateCodecs()
      requires Valid()
      modifies Repr()
      ensures Valid() && fresh(Repr() - old(Repr()))
      ensures Value() == DoUpdateCodecs(old(Value()))
    {
      if currentSegment != null && currentSegment.file != [] {
        CloseSegment(CodecChange);
      }
    }

    method Handle(e: Event)
      requires Valid() && (e.Write? ==> e.track < |c.tracks|)
      modifies Repr()
      ensures Valid() && fresh(Repr() - old(Repr()))
      ensures Value() == Step(c, old(Value()), e)
    {
      match e
      case Write(track, sample) => Write(track, sample);
      case UpdateCodecs => UpdateCodecs();
    }

    method Close()
      requires Valid()
      modifies Repr()
      ensures Valid() && Value() == RecorderSpec.Close(c, old(Value()))
    {
      if currentSegment != null {
        currentSegment.lastDTS := LatestDTS(currentSegment.lastDTS);
        CloseSegment(EndOfRecording);
      }
    }

    /** The loop of `close` over the held samples. */
    method LatestDTS(last: int) returns (r: int)
      requires c.Valid() && |nextSamples| == |c.tracks|
      ensures r == LatestHeld(c, nextSamples, last)
    {
      r := last;
      for i := 0 to |nextSamples|
        invariant r == LatestHeld(c, nextSamples[..i], last)
      {
        assert nextSamples[..i + 1][..i] == nextSamples[..i];
        if nextSamples[i].Some? && ToDuration(nextSamples[i].value.dts, c.tracks[i].timeScale) > r {
          r := ToDuration(nextSamples[i].value.dts, c.tracks[i].timeScale);
        }
      }
      assert nextSamples[..|nextSamples|] == nextSamples;
    }
  }

  method Feed(c: Config, events: seq<Event>) returns (r: Recorder)
    requires c.Valid() && Proper(c, events)
    ensures r.Valid() && r.c == c && fresh(r.Repr()) && r.Value() == Run(c, events)
  {
    r := new Recorder(c);
    for i := 0 to |events|
      invariant r.Valid() && r.c == c && fresh(r.Repr())
      invariant r.Value() == Run(c, events[..i])
    {
      assert events[..i + 1][..i] == events[..i];
      r.Handle(events[i]);
    }
    assert events[..|events|] == events;
  }

  /** A whole recording: its files hold exactly what ought to be recorded. */
  method Record(c: Config, events: seq<Event>) returns (r: Recorder)
    requires c.Valid() && Proper(c, events)
    ensures r.c == c && r.Valid() && r.Value() == Close(c, Run(c, events))
    ensures OutputsOf(c, r.files, r.outputs) && OfFiles(r.files) == RecorderSafety.Expected(c, events)
  {
    r := Feed(c, events);
    r.Close();
    RecorderSafety.RecordingIsExact(c, events);
  }
}
