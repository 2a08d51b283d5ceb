/** What the recorder keeps, over every interleaving of tracks and codec changes. */
module RecorderSafety {
  import opened Common
  import opened Timestamps
  import opened RecorderSpec

  // Conservation: nothing is lost, reordered or duplicated

  /** The sample that a track holds back after the given events: its last one. */
  function Held(events: seq<Event>, track: nat): Option<Sample> {
    if events == [] then None
    else
      var e := events[|events| - 1];
      if e.Write? && e.track == track then Some(e.sample) else Held(events[..|events| - 1], track)
  }

  /** The distance to the next sample, as far as 32 bits can hold it. */
  function Distance(dts: int, next: int): (d: nat)
    ensures d < TWO_32
    ensures 0 <= next - dts < TWO_32 ==> d == next - dts
  {
    (next - dts) % TWO_32
  }

  /** This time lies before the start of the segment that is open after the given events. */
  predicate PrecedesOpen(c: Config, events: seq<Event>, at: int)
    requires c.Valid() && Proper(c, events)
  {
    var open := Run(c, events).segment;
    open.Some? && at < open.value.start
  }

  /** What an event adds to the recording, after the given ones. */
  function Added(c: Config, before: seq<Event>, e: Event): seq<Arrival>
    requires c.Valid() && Proper(c, before) && (e.Write? ==> e.track < |c.tracks|)
  {
    if !e.Write? || Held(before, e.track).None? then []
    else
      var held := Held(before, e.track).value;
      var at := At(c, e.track, held.dts);
      if PrecedesOpen(c, before, at) then []
      else [Arrival(e.track, held.(duration := Distance(held.dts, e.sample.dts)), at)]
  }

  /**
   * What ought to be recorded: each time a track receives a sample, the one it received before, with the distance to
   * the new one as its duration, unless the segment that is open at that moment starts later.
   */
  function Expected(c: Config, events: seq<Event>): seq<Arrival>
    requires c.Valid() && Proper(c, events)
  {
    if events == [] then []
    else Expected(c, events[..|events| - 1]) + Added(c, events[..|events| - 1], events[|events| - 1])
  }

  lemma OfFlushed(g: Segment)
    ensures OfSegment(Flushed(g)) == OfSegment(g) && PartsOf(Flushed(g)) == PartsOf(g)
  {
    if g.current.Some? {
      assert (g.parts + [g.current.value])[..|g.parts|] == g.parts;
    }
  }

  lemma OneMoreFile(files: seq<File>, f: File)
    ensures OfFiles(files + [f]) == OfFiles(files) + OfSegment(f.segment)
    ensures PartsOfFiles(files + [f]) == PartsOfFiles(files) + PartsOf(f.segment)
  {
    assert (files + [f])[..|files|] == files;
  }

  lemma OfPut(c: Config, g: Segment, number: nat, a: Arrival)
    ensures OfSegment(Put(c, g, number, a)) == OfSegment(g) + [a]
  {
    var g1 := g.(last := a.at);
    OfFlushed(g1);
    if NeedsPart(c, g) {
      assert OfSegment(Put(c, g, number, a)) == OfParts(Flushed(g1).parts) + [a];
    } else {
      assert OfParts(g.parts) + (g.current.value.arrivals + [a]) == (OfParts(g.parts) + g.current.value.arrivals) + [a];
    }
  }

  lemma AcceptRecords(c: Config, s: State, a: Arrival)
    ensures Recorded(Accept(c, s, a)) == Recorded(s) + [a]
  {
    OfPut(c, Target(s, a), s.nextNumber, a);
  }

  lemma RollOverRecords(c: Config, s: State, track: nat, next: Sample)
    requires c.Valid() && track < |c.tracks| && s.segment.Some?
    ensures Recorded(RollOver(c, s, track, next)) == Recorded(s)
  {
    var g := s.segment.value.(last := At(c, track, next.dts));
    OfFlushed(g);
    OneMoreFile(s.files, File(Flushed(g), Rollover));
  }

  lemma UpdateCodecsRecords(s: State)
    ensures Recorded(DoUpdateCodecs(s)) == Recorded(s)
  {
    if s.segment.Some? {
      OfFlushed(s.segment.value);
      OneMoreFile(s.files, File(Flushed(s.segment.value), CodecChange));
    }
  }

  lemma CloseRecords(c: Config, s: State)
    requires c.Valid() && |s.pending| == |c.tracks|
    ensures Recorded(Close(c, s)) == Recorded(s)
  {
    if s.segment.Some? {
      var g := s.segment.value.(last := LatestHeld(c, s.pending, s.segment.value.last));
      OfFlushed(g);
      OneMoreFile(s.files, File(Flushed(g), EndOfRecording));
    }
  }

  lemma WriteRecords(c: Config, s: State, track: nat, next: Sample)
    requires c.Valid() && track < |c.tracks| == |s.pending|
    ensures Recorded(DoWrite(c, s, track, next)) ==
      if s.pending[track].None? || TooEarly(s, At(c, track, s.pending[track].value.dts)) then Recorded(s)
      else Recorded(s) + [Arrival(track, Timed(s.pending[track].value, next), At(c, track, s.pending[track].value.dts))]
  {
    var s1 := s.(hasVideo := s.hasVideo || c.tracks[track].isVideo, pending := s.pending[track := Some(next)]);
    if s.pending[track].Some? {
      var held := s.pending[track].value;
      var a := Arrival(track, Timed(held, next), At(c, track, held.dts));
      if !TooEarly(s, a.at) {
        AcceptRecords(c, s1, a);
        RollOverRecords(c, Accept(c, s1, a), track, next);
      }
    }
  }

  lemma {:induction false} RunHolds(c: Config, events: seq<Event>, track: nat)
    requires c.Valid() && Proper(c, events) && track < |c.tracks|
    ensures Run(c, events).pending[track] == Held(events, track)
  {
    if events != [] { RunHolds(c, events[..|events| - 1], track); }
  }

  lemma AddedIs(c: Config, before: seq<Event>, track: nat, next: Sample)
    requires c.Valid() && Proper(c, before) && track < |c.tracks|
    ensures var s := Run(c, before);
      Added(c, before, Write(track, next)) ==
      if s.pending[track].None? || TooEarly(s, At(c, track, s.pending[track].value.dts)) then []
      else [Arrival(track, Timed(s.pending[track].value, next), At(c, track, s.pending[track].value.dts))]
  {
    RunHolds(c, before, track);
  }

  lemma StepRecords(c: Config, before: seq<Event>, e: Event)
    requires c.Valid() && Proper(c, before) && (e.Write? ==> e.track < |c.tracks|)
    ensures Recorded(Step(c, Run(c, before), e)) == Recorded(Run(c, before)) + Added(c, before, e)
  {
    match e
    case Write(track, next) =>
      AddedIs(c, before, track, next);
      WriteRecords(c, Run(c, before), track, next);
    case UpdateCodecs => UpdateCodecsRecords(Run(c, before));
  }

  /**
   * The recording is exact: flattening every part of every segment gives, in order of arrival over all tracks, each
   * sample written except the last one of its track and those that precede the start of the segment they would have
   * gone into, with its payload and flags unchanged and its duration reaching to the next sample of its track.
   */
  lemma {:induction false} RecordingIsExact(c: Config, events: seq<Event>)
    requires c.Valid() && Proper(c, events)
    ensures Recorded(Run(c, events)) == Expected(c, events)
    ensures Recorded(Close(c, Run(c, events))) == Expected(c, events)
  {
    if events != [] {
      RecordingIsExact(c, events[..|events| - 1]);
      StepRecords(c, events[..|events| - 1], events[|events| - 1]);
    }
    CloseRecords(c, Run(c, events));
  }

  /**
   * The sample a track holds back is recorded by the next write to the track if and only if no segment is open or the
   * sample does not lie before the start of the open one; a sample at that very instant is recorded.
   */
  lemma HeldIsRecordedExactlyWhen(c: Config, events: seq<Event>, track: nat, next: Sample)
    requires c.Valid() && Proper(c, events) && track < |c.tracks| && Held(events, track).Some?
    ensures var s, held := Run(c, events), Held(events, track).value;
      var at := ToDuration(held.dts, c.tracks[track].timeScale);
      var before, after := Recorded(s), Recorded(Step(c, s, Write(track, next)));
      if s.segment.None? || at - s.segment.value.start >= 0 then
        exists a: Arrival :: after == before + [a] && a.track == track && a.at == at && IsHeld(a.sample, held, next)
      else
        after == before
  {
    StepRecords(c, events, Write(track, next));
  }

  /** The held sample, unchanged but for its duration, which reaches to the next one if 32 bits can hold it. */
  predicate IsHeld(recorded: Sample, held: Sample, next: Sample) {
    && recorded.dts == held.dts && recorded.ntp == held.ntp
    && recorded.nonSync == held.nonSync && recorded.payload == held.payload
    && (0 <= next.dts - held.dts < 0x1_0000_0000 ==> recorded.duration == next.dts - held.dts)
  }

  // Parts and segments

  /** Only the last sample of a part may lie `PartDuration` or more after its start. */
  predicate GoodPart(c: Config, p: Part) {
    && p.arrivals != []
    && p.start == p.arrivals[0].at
    && forall i :: 0 <= i < |p.arrivals| - 1 ==> p.arrivals[i].at - p.start < c.partDuration
  }

  predicate Full(c: Config, p: Part) {
    p.arrivals != [] && EndOf(p) - p.start >= c.partDuration
  }

  /** Every part of a segment but the last one has been closed because its last sample made it long enough. */
  predicate GoodParts(c: Config, parts: seq<Part>) {
    && (forall i :: 0 <= i < |parts| ==> GoodPart(c, parts[i]))
    && (forall i :: 0 <= i < |parts| - 1 ==> Full(c, parts[i]))
  }

  predicate GoodArrival(c: Config, start: int, a: Arrival)
    requires c.Valid()
  {
    a.track < |c.tracks| && a.at == At(c, a.track, a.sample.dts) && a.at >= start
  }

  predicate AllGood(c: Config, start: int, p: Part)
    requires c.Valid()
  {
    forall i :: 0 <= i < |p.arrivals| ==> GoodArrival(c, start, p.arrivals[i])
  }

  predicate GoodArrivals(c: Config, start: int, parts: seq<Part>)
    requires c.Valid()
  {
    forall i :: 0 <= i < |parts| ==> AllGood(c, start, parts[i])
  }

  predicate GoodSegment(c: Config, g: Segment)
    requires c.Valid()
  {
    && g.owner < |c.tracks| && g.start == At(c, g.owner, g.first.dts)
    && GoodParts(c, PartsOf(g))
    && GoodArrivals(c, g.start, PartsOf(g))
    && (g.rolled ==> !g.first.nonSync)
  }

  /** In a segment that is still open, a flushed part is always followed by a current one. */
  predicate Open(g: Segment) {
    g.parts != [] ==> g.current.Some?
  }

  lemma NewPartKeepsGood(c: Config, parts: seq<Part>, number: nat, a: Arrival)
    requires GoodParts(c, parts) && (parts != [] ==> Full(c, parts[|parts| - 1]))
    ensures GoodParts(c, parts + [Part(number, a.at, [a])])
  {
  }

  lemma LongerPartIsGood(c: Config, p: Part, a: Arrival)
    requires GoodPart(c, p) && !Full(c, p)
    ensures GoodPart(c, p.(arrivals := p.arrivals + [a]))
  {
    var q := p.(arrivals := p.arrivals + [a]);
    forall i | 0 <= i < |q.arrivals| - 1 ensures q.arrivals[i].at - q.start < c.partDuration {
      if i == |p.arrivals| - 1 { assert q.arrivals[i].at == EndOf(p); }
    }
  }

  lemma LongerPartKeepsGood(c: Config, front: seq<Part>, p: Part, a: Arrival)
    requires GoodParts(c, front + [p]) && !Full(c, p)
    ensures GoodParts(c, front + [p.(arrivals := p.arrivals + [a])])
  {
    assert (front + [p])[|front|] == p;
    LongerPartIsGood(c, p, a);
    forall i | 0 <= i < |front| ensures GoodPart(c, front[i]) && Full(c, front[i]) {
      assert (front + [p])[i] == front[i];
    }
  }

  lemma PartsOfPut(c: Config, g: Segment, number: nat, a: Arrival)
    ensures PartsOf(Put(c, g, number, a)) ==
      if NeedsPart(c, g) then PartsOf(g) + [Part(number, a.at, [a])]
      else g.parts + [g.current.value.(arrivals := g.current.value.arrivals + [a])]
  {
    OfFlushed(g.(last := a.at));
  }

  lemma PutKeepsGood(c: Config, g: Segment, number: nat, a: Arrival)
    requires c.Valid() && GoodSegment(c, g) && Open(g) && GoodArrival(c, g.start, a)
    ensures GoodSegment(c, Put(c, g, number, a)) && Open(Put(c, g, number, a))
  {
    PartsOfPut(c, g, number, a);
    if g.current.Some? { assert PartsOf(g)[|g.parts|] == g.current.value; }
    if NeedsPart(c, g) {
      NewPartKeepsGood(c, PartsOf(g), number, a);
      assert AllGood(c, g.start, Part(number, a.at, [a]));
      OneMoreGood(c, g.start, PartsOf(g), Part(number, a.at, [a]));
    } else {
      var p := g.current.value;
      var q := p.(arrivals := p.arrivals + [a]);
      LongerPartKeepsGood(c, g.parts, p, a);
      assert AllGood(c, g.start, p) && AllGood(c, g.start, q);
      forall i | 0 <= i < |g.parts| ensures AllGood(c, g.start, g.parts[i]) { assert PartsOf(g)[i] == g.parts[i]; }
      OneMoreGood(c, g.start, g.parts, q);
    }
  }

  lemma OneMoreGood(c: Config, start: int, parts: seq<Part>, p: Part)
    requires c.Valid() && GoodArrivals(c, start, parts) && AllGood(c, start, p)
    ensures GoodArrivals(c, start, parts + [p])
  {
  }

  lemma FlushedKeepsGood(c: Config, g: Segment, last: int)
    requires c.Valid() && GoodSegment(c, g)
    ensures GoodSegment(c, Flushed(g.(last := last)))
  {
    OfFlushed(g.(last := last));
  }

  /** The segment that follows a file: that of the next file, or the one that is still open. */
  function Following(s: State, i: nat): Option<Segment>
    requires i < |s.files|
  {
    if i + 1 < |s.files| then Some(s.files[i + 1].segment) else s.segment
  }

  /**
   * A file closed by a rollover is long enough, and the next segment takes over at the very DTS at which it ends;
   * only then is the next segment one that was opened by a rollover.
   */
  predicate Continues(c: Config, s: State, i: nat)
    requires i < |s.files|
  {
    var f := s.files[i];
    if f.cause == Rollover then
      && f.segment.last - f.segment.start >= c.segmentDuration
      && Following(s, i).Some? && Following(s, i).value.start == f.segment.last && Following(s, i).value.rolled
    else
      Following(s, i).Some? ==> !Following(s, i).value.rolled
  }

  predicate SegmentsInv(c: Config, s: State)
    requires c.Valid()
  {
    && |s.pending| == |c.tracks|
    && (s.segment.Some? ==> GoodSegment(c, s.segment.value) && Open(s.segment.value))
    && (forall i :: 0 <= i < |s.files| ==> GoodSegment(c, s.files[i].segment) && Continues(c, s, i))
  }

  /** Another segment in the place of the open one, with the same start, leaves the files as they are. */
  lemma FilesKept(c: Config, s: State, t: State)
    requires c.Valid() && SegmentsInv(c, s) && t.files == s.files && |t.pending| == |s.pending| && t.segment.Some?
    requires GoodSegment(c, t.segment.value) && Open(t.segment.value)
    requires if s.segment.Some?
             then t.segment.value.start == s.segment.value.start && t.segment.value.rolled == s.segment.value.rolled
             else !t.segment.value.rolled
    ensures SegmentsInv(c, t)
  {
    forall i | 0 <= i < |s.files| ensures GoodSegment(c, t.files[i].segment) && Continues(c, t, i) {
      assert Continues(c, s, i);
    }
  }

  lemma AcceptKeeps(c: Config, s: State, a: Arrival)
    requires c.Valid() && SegmentsInv(c, s) && a.track < |c.tracks| && a.at == At(c, a.track, a.sample.dts)
    requires !TooEarly(s, a.at)
    ensures SegmentsInv(c, Accept(c, s, a))
  {
    var g := Target(s, a);
    assert GoodSegment(c, g) && Open(g);
    PutKeepsGood(c, g, s.nextNumber, a);
    FilesKept(c, s, Accept(c, s, a));
  }

  lemma CloseFileKeeps(c: Config, s: State, last: int, cause: Cause, next: Option<Segment>)
    requires c.Valid() && SegmentsInv(c, s) && s.segment.Some?
    requires next.Some? ==> GoodSegment(c, next.value) && Open(next.value)
    requires
      if cause == Rollover
      then last - s.segment.value.start >= c.segmentDuration &&
           next.Some? && next.value.start == last && next.value.rolled
      else next.None?
    ensures SegmentsInv(
      c, s.(files := s.files + [File(Flushed(s.segment.value.(last := last)), cause)], segment := next))
  {
    var g := s.segment.value;
    FlushedKeepsGood(c, g, last);
    var t := s.(files := s.files + [File(Flushed(g.(last := last)), cause)], segment := next);
    forall i | 0 <= i < |t.files| ensures GoodSegment(c, t.files[i].segment) && Continues(c, t, i) {
      if i < |s.files| { assert Continues(c, s, i) && t.files[i] == s.files[i]; }
    }
  }

  lemma PendingIrrelevant(c: Config, s: State, t: State)
    requires c.Valid() && SegmentsInv(c, s)
    requires t == s.(hasVideo := t.hasVideo, pending := t.pending) && |t.pending| == |s.pending|
    ensures SegmentsInv(c, t)
  {
    forall i | 0 <= i < |t.files| ensures Continues(c, t, i) { assert Continues(c, s, i); }
  }

  lemma WriteKeeps(c: Config, s: State, track: nat, next: Sample)
    requires c.Valid() && track < |c.tracks| == |s.pending| && SegmentsInv(c, s)
    ensures SegmentsInv(c, DoWrite(c, s, track, next))
  {
    var s1 := s.(hasVideo := s.hasVideo || c.tracks[track].isVideo, pending := s.pending[track := Some(next)]);
    PendingIrrelevant(c, s, s1);
    if s.pending[track].Some? {
      var held := s.pending[track].value;
      var a := Arrival(track, Timed(held, next), At(c, track, held.dts));
      if !TooEarly(s, a.at) {
        AcceptKeeps(c, s1, a);
        var s2 := Accept(c, s1, a);
        if RollsOver(c, s2, track, next) {
          var at := At(c, track, next.dts);
          CloseFileKeeps(c, s2, at, Rollover, Some(NewSegment(track, next, at, true)));
        }
      }
    }
  }

  lemma UpdateCodecsKeeps(c: Config, s: State)
    requires c.Valid() && SegmentsInv(c, s)
    ensures SegmentsInv(c, DoUpdateCodecs(s))
  {
    if s.segment.Some? {
      CloseFileKeeps(c, s, s.segment.value.last, CodecChange, None);
      assert s.segment.value.(last := s.segment.value.last) == s.segment.value;
    }
  }

  /** Over every run and at its end, all segments are well formed and follow each other as they should. */
  lemma {:induction false} RunKeepsSegments(c: Config, events: seq<Event>)
    requires c.Valid() && Proper(c, events)
    ensures SegmentsInv(c, Run(c, events)) && SegmentsInv(c, Close(c, Run(c, events)))
  {
    if events != [] {
      var before, e := events[..|events| - 1], events[|events| - 1];
      RunKeepsSegments(c, before);
      match e {
        case Write(track, next) => WriteKeeps(c, Run(c, before), track, next);
        case UpdateCodecs => UpdateCodecsKeeps(c, Run(c, before));
      }
    }
    var s := Run(c, events);
    if s.segment.Some? {
      CloseFileKeeps(c, s, LatestHeld(c, s.pending, s.segment.value.last), EndOfRecording, None);
    }
  }

  // Part numbers

  predicate InOrder(parts: seq<Part>) {
    forall i :: 0 <= i < |parts| ==> parts[i].number == i % TWO_32
  }

  /** Part numbers count all parts of all segments, modulo 2^32. */
  predicate Numbered(s: State) {
    InOrder(AllParts(s)) && s.nextNumber == |AllParts(s)| % TWO_32
  }

  lemma OneMoreInOrder(parts: seq<Part>, p: Part)
    requires InOrder(parts) && p.number == |parts| % TWO_32
    ensures InOrder(parts + [p]) && NextNumber(p.number) == |parts + [p]| % TWO_32
  {
  }

  lemma LastInOrder(front: seq<Part>, p: Part, q: Part)
    requires InOrder(front + [p]) && q.number == p.number
    ensures InOrder(front + [q])
  {
    assert (front + [p])[|front|] == p;
    forall i | 0 <= i < |front| ensures front[i].number == i % TWO_32 { assert (front + [p])[i] == front[i]; }
  }

  lemma AcceptNumbers(c: Config, s: State, a: Arrival)
    requires Numbered(s)
    ensures Numbered(Accept(c, s, a))
  {
    var g, t := Target(s, a), Accept(c, s, a);
    var before := PartsOfFiles(s.files);
    PartsOfPut(c, g, s.nextNumber, a);
    if NeedsPart(c, g) {
      var p := Part(s.nextNumber, a.at, [a]);
      assert before + (PartsOf(g) + [p]) == AllParts(s) + [p];
      OneMoreInOrder(AllParts(s), p);
    } else {
      var p := g.current.value;
      var q := p.(arrivals := p.arrivals + [a]);
      assert AllParts(s) == before + g.parts + [p];
      assert AllParts(t) == before + g.parts + [q];
      LastInOrder(before + g.parts, p, q);
    }
  }

  lemma CloseFileNumbers(s: State, t: State, f: File)
    requires Numbered(s) && s.segment.Some? && PartsOf(f.segment) == PartsOf(s.segment.value)
    requires t.files == s.files + [f] && t.nextNumber == s.nextNumber
    requires t.segment.Some? ==> PartsOf(t.segment.value) == []
    ensures Numbered(t)
  {
    OneMoreFile(s.files, f);
    assert AllParts(t) == AllParts(s);
  }

  lemma RollOverNumbers(c: Config, s: State, track: nat, next: Sample)
    requires c.Valid() && track < |c.tracks| && s.segment.Some? && Numbered(s)
    ensures Numbered(RollOver(c, s, track, next))
  {
    var g := s.segment.value.(last := At(c, track, next.dts));
    OfFlushed(g);
    CloseFileNumbers(s, RollOver(c, s, track, next), File(Flushed(g), Rollover));
  }

  lemma StepNumbers(c: Config, s: State, e: Event)
    requires c.Valid() && |s.pending| == |c.tracks| && (e.Write? ==> e.track < |c.tracks|)
    requires Numbered(s)
    ensures Numbered(Step(c, s, e))
  {
    if e.Write? {
      var s1 := s.(hasVideo := s.hasVideo || c.tracks[e.track].isVideo,
                   pending := s.pending[e.track := Some(e.sample)]);
      assert Numbered(s1) by { assert AllParts(s1) == AllParts(s); }
      if s.pending[e.track].Some? {
        var held := s.pending[e.track].value;
        var a := Arrival(e.track, Timed(held, e.sample), At(c, e.track, held.dts));
        AcceptNumbers(c, s1, a);
        RollOverNumbers(c, Accept(c, s1, a), e.track, e.sample);
      }
    } else if s.segment.Some? && s.segment.value.parts != [] {
      OfFlushed(s.segment.value);
      CloseFileNumbers(s, DoUpdateCodecs(s), File(Flushed(s.segment.value), CodecChange));
    }
  }

  /** Sequence numbers run on across segments, over every run. */
  lemma {:induction false} RunNumbers(c: Config, events: seq<Event>)
    requires c.Valid() && Proper(c, events)
    ensures Numbered(Run(c, events))
  {
    if events != [] {
      RunNumbers(c, events[..|events| - 1]);
      StepNumbers(c, Run(c, events[..|events| - 1]), events[|events| - 1]);
    }
  }

  // Rollover

  /** A sample of a video track has been written. */
  predicate SawVideo(c: Config, events: seq<Event>)
    requires Proper(c, events)
  {
    exists i :: 0 <= i < |events| && events[i].Write? && c.tracks[events[i].track].isVideo
  }

  lemma {:induction false} RunSeesVideo(c: Config, events: seq<Event>)
    requires c.Valid() && Proper(c, events)
    ensures Run(c, events).hasVideo <==> SawVideo(c, events)
  {
    if events != [] {
      var before, e := events[..|events| - 1], events[|events| - 1];
      RunSeesVideo(c, before);
      if SawVideo(c, before) {
        var i :| 0 <= i < |before| && before[i].Write? && c.tracks[before[i].track].isVideo;
        assert events[i] == before[i];
      }
      if e.Write? && c.tracks[e.track].isVideo { assert events[|events| - 1] == e; }
    }
  }

  /** The event makes the recorder start a new file by rollover. */
  predicate Rolls(c: Config, events: seq<Event>)
    requires c.Valid() && Proper(c, events) && events != []
  {
    var s, t := Run(c, events[..|events| - 1]), Run(c, events);
    |t.files| > |s.files| && t.files[|t.files| - 1].cause == Rollover
  }

  /**
   * A rollover happens exactly when the sample that arrives makes its track record one, is a sync sample, is at least
   * `SegmentDuration` after the start of the segment that sample went into, and belongs to a video track once any
   * video sample has been written.
   */
  lemma RollsExactlyWhen(c: Config, events: seq<Event>)
    requires c.Valid() && Proper(c, events) && events != []
    ensures var before, e := events[..|events| - 1], events[|events| - 1];
      Rolls(c, events) <==>
        && e.Write? && |Expected(c, events)| > |Expected(c, before)|
        && !e.sample.nonSync
        && (SawVideo(c, events) ==> c.tracks[e.track].isVideo)
        && At(c, e.track, e.sample.dts) - StartFor(Run(c, before), Expected(c, events)) >= c.segmentDuration
  {
    var before, e := events[..|events| - 1], events[|events| - 1];
    RunSeesVideo(c, events);
    if e.Write? { RunHolds(c, before, e.track); }
  }

  /** The start of the segment that the last of the recorded samples goes into. */
  function StartFor(s: State, recorded: seq<Arrival>): int {
    if s.segment.Some? then s.segment.value.start
    else if recorded == [] then 0
    else recorded[|recorded| - 1].at
  }

  // Base times

  function FirstOf(arrivals: seq<Arrival>, track: nat): Option<Arrival> {
    if arrivals == [] then None
    else if arrivals[0].track == track then Some(arrivals[0])
    else FirstOf(arrivals[1..], track)
  }

  lemma {:induction false} FirstOfConcat(arrivals: seq<Arrival>, a: Arrival, track: nat)
    ensures FirstOf(arrivals + [a], track) ==
      if FirstOf(arrivals, track).Some? then FirstOf(arrivals, track) else if a.track == track then Some(a) else None
  {
    if arrivals == [] {
      assert ([] + [a])[1..] == [];
    } else {
      assert (arrivals + [a])[1..] == arrivals[1..] + [a];
      FirstOfConcat(arrivals[1..], a, track);
    }
  }

  /** `BaseTime` of a track in a part, before the conversion to an unsigned number. */
  function BaseTime(c: Config, g: Segment, a: Arrival): int
    requires c.Valid() && a.track < |c.tracks|
  {
    ToTicks(a.at - g.start, c.tracks[a.track].timeScale)
  }

  lemma {:induction false} FirstOfIsThere(arrivals: seq<Arrival>, track: nat)
    requires FirstOf(arrivals, track).Some?
    ensures exists i ::
      0 <= i < |arrivals| && arrivals[i] == FirstOf(arrivals, track).value && arrivals[i].track == track
  {
    if arrivals[0].track == track {
      assert arrivals[0] == FirstOf(arrivals, track).value;
    } else {
      FirstOfIsThere(arrivals[1..], track);
      var i :| 0 <= i < |arrivals[1..]| && arrivals[1..][i] == FirstOf(arrivals[1..], track).value &&
        arrivals[1..][i].track == track;
      assert arrivals[i + 1] == FirstOf(arrivals, track).value;
    }
  }

  lemma TicksNotNegative(d: nat, rate: nat)
    ensures ToTicks(d, rate) >= 0
  {
    MultiplyAndDivideExact(d, rate, SECOND);
    TimesMonotone(0, d, rate);
  }

  /**
   * No base time is negative. For the track whose sample set the start of the segment, with a clock not finer than a
   * nanosecond, it is the exact offset in ticks if and only if the conversion to nanoseconds cuts off no more of the
   * sample's DTS than of the start; otherwise it is one tick short, or, if the start is negative, at most two.
   */
  lemma BaseTimeIsExactWhen(c: Config, g: Segment, p: Part, track: nat)
    requires c.Valid() && GoodSegment(c, g) && p in PartsOf(g) && FirstOf(p.arrivals, track).Some?
    ensures var a := FirstOf(p.arrivals, track).value;
      && a.track == track < |c.tracks|
      && BaseTime(c, g, a) >= 0
      && (track == g.owner && c.tracks[track].timeScale <= SECOND ==>
            OwnBaseTime(BaseTime(c, g, a), g.first.dts, a.sample.dts, c.tracks[track].timeScale))
  {
    FirstOfIsThere(p.arrivals, track);
    var a := FirstOf(p.arrivals, track).value;
    var k :| 0 <= k < |PartsOf(g)| && PartsOf(g)[k] == p;
    assert AllGood(c, g.start, p);
    var rate := c.tracks[track].timeScale;
    TicksNotNegative(a.at - g.start, rate);
    if track == g.owner && rate <= SECOND {
      ToDurationMonotone(g.first.dts, a.sample.dts, rate);
      RoundTripIsExactWhen(g.first.dts, a.sample.dts, rate);
    }
  }

  predicate OwnBaseTime(base: int, from: int, to: int, rate: int)
    requires rate > 0
  {
    && (base == to - from <==> Cut(to, rate) <= Cut(from, rate))
    && to - from - 2 <= base <= to - from
    && (from >= 0 ==> base >= to - from - 1)
  }

  /** A base time, and the offset it stands for in ticks of its track, times the rate of the track at the start. */
  predicate NearBaseTime(base: int, from: int, rateFrom: int, to: int, rateTo: int) {
    var exact := Across(from, rateFrom, to, rateTo);
    && (base - 2) * rateFrom < exact < (base + 3) * rateFrom
    && (from >= 0 && to >= 0 ==> (base - 1) * rateFrom < exact < (base + 2) * rateFrom)
  }

  /**
   * The base time of any track, also of one with another clock than the track that set the start of the segment, is
   * less than two ticks short of the true offset and less than one beyond it, if no DTS is negative.
   */
  lemma BaseTimeIsNear(c: Config, g: Segment, p: Part, track: nat)
    requires c.Valid() && GoodSegment(c, g) && p in PartsOf(g) && FirstOf(p.arrivals, track).Some?
    requires track < |c.tracks| && c.tracks[track].timeScale <= SECOND
    ensures var a := FirstOf(p.arrivals, track).value;
      && a.track == track
      && NearBaseTime(
           BaseTime(c, g, a), g.first.dts, c.tracks[g.owner].timeScale, a.sample.dts, c.tracks[track].timeScale)
  {
    FirstOfIsThere(p.arrivals, track);
    var a := FirstOf(p.arrivals, track).value;
    var k :| 0 <= k < |PartsOf(g)| && PartsOf(g)[k] == p;
    assert AllGood(c, g.start, p);
    OffsetAcrossIsNear(g.first.dts, c.tracks[g.owner].timeScale, a.sample.dts, c.tracks[track].timeScale);
  }
}
