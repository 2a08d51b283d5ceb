/** Where the segments of a recording begin and end (recorder/format_fmp4_track.go, recorder/format_fmp4.go). */
module RecorderBounds {
  import opened Common
  import opened Timestamps
  import opened RecorderSpec
  import opened RecorderSafety

  // The beginning

  /** The same frame; a sample has no duration before its successor is known. */
  predicate SameFrame(a: Sample, b: Sample) {
    a == b.(duration := a.duration)
  }

  /**
   * The first sample that a segment records of its owner is the one it was opened with. As long as there is none, the
   * segment was opened by a rollover.
   */
  predicate Begins(g: Segment) {
    var arrivals := OfSegment(g);
    && (g.rolled || (arrivals != [] && arrivals[0].track == g.owner))
    && match FirstOf(arrivals, g.owner)
       case Some(a) => SameFrame(a.sample, g.first)
       case None => g.rolled
  }

  /** Until then the owner holds that sample. */
  predicate IsAwaited(g: Segment, pending: seq<Option<Sample>>) {
    FirstOf(OfSegment(g), g.owner).None? ==> g.owner < |pending| && pending[g.owner] == Some(g.first)
  }

  predicate BoundsInv(s: State) {
    && (s.segment.Some? ==>
          Begins(s.segment.value) && IsAwaited(s.segment.value, s.pending) &&
          s.segment.value.last == LastAt(s.segment.value))
    && forall i :: 0 <= i < |s.files| ==> GoodFile(s.files[i])
  }

  predicate GoodFile(f: File) {
    && Begins(f.segment)
    && (f.cause == CodecChange ==> f.segment.last == LastAt(f.segment))
    && f.cause != EndOfRecording
  }

  // The end

  /** The time of the last sample recorded in a segment, or its start. */
  function LastAt(g: Segment): int {
    var arrivals := OfSegment(g);
    if arrivals == [] then g.start else arrivals[|arrivals| - 1].at
  }

  lemma FlushedBounds(g: Segment, last: int)
    ensures var f := Flushed(g.(last := last));
      && OfSegment(f) == OfSegment(g) && f.last == last && f.owner == g.owner && f.first == g.first
      && f.rolled == g.rolled && LastAt(f) == LastAt(g)
  {
    OfFlushed(g.(last := last));
    OfFlushed(g);
  }

  lemma FlushedBegins(g: Segment, last: int)
    requires Begins(g)
    ensures Begins(Flushed(g.(last := last)))
  {
    FlushedBounds(g, last);
  }

  lemma PutBounds(c: Config, g: Segment, number: nat, a: Arrival)
    ensures var h := Put(c, g, number, a);
      && FirstOf(OfSegment(h), h.owner) ==
         (if FirstOf(OfSegment(g), g.owner).None? && a.track == g.owner then Some(a)
          else FirstOf(OfSegment(g), g.owner))
      && (OfSegment(h) == OfSegment(g) + [a])
      && h.last == LastAt(h) && h.first == g.first && h.rolled == g.rolled && h.owner == g.owner
  {
    OfPut(c, g, number, a);
    FirstOfConcat(OfSegment(g), a, g.owner);
  }

  /** The segment has room for the sample that the owner holds. */
  lemma HeldFirstIsNotEarly(c: Config, s: State, track: nat)
    requires c.Valid() && SegmentsInv(c, s) && BoundsInv(s) && s.segment.Some? && track < |c.tracks|
    requires s.segment.value.owner == track && FirstOf(OfSegment(s.segment.value), track).None?
    ensures s.pending[track] == Some(s.segment.value.first)
    ensures !TooEarly(s, At(c, track, s.segment.value.first.dts))
  {
  }

  lemma AcceptBounds(c: Config, s: State, s1: State, held: Sample, a: Arrival)
    requires BoundsInv(s) && a.track < |s.pending| == |s1.pending|
    requires s.pending[a.track] == Some(held) && SameFrame(a.sample, held)
    requires s1 == s.(hasVideo := s1.hasVideo, pending := s.pending[a.track := s1.pending[a.track]])
    ensures BoundsInv(Accept(c, s1, a))
  {
    var g := Target(s, a);
    PutBounds(c, g, s.nextNumber, a);
  }

  lemma RollOverBounds(c: Config, s: State, track: nat, next: Sample)
    requires c.Valid() && track < |c.tracks| == |s.pending| && s.segment.Some? && BoundsInv(s)
    requires s.pending[track] == Some(next)
    ensures BoundsInv(RollOver(c, s, track, next))
  {
    FlushedBegins(s.segment.value, At(c, track, next.dts));
  }

  lemma UnrecordedBounds(s: State, s1: State, track: nat)
    requires BoundsInv(s) && track < |s.pending| == |s1.pending|
    requires s1 == s.(hasVideo := s1.hasVideo, pending := s.pending[track := s1.pending[track]])
    requires s.segment.Some? && s.segment.value.owner == track ==>
      FirstOf(OfSegment(s.segment.value), track).Some?
    ensures BoundsInv(s1)
  {
  }

  /** A track that opened the segment and is not in it yet holds a sample that will not be rejected. */
  lemma OwnerIsRecorded(c: Config, s: State, track: nat)
    requires c.Valid() && track < |c.tracks| == |s.pending| && SegmentsInv(c, s) && BoundsInv(s)
    requires s.pending[track].None? || TooEarly(s, At(c, track, s.pending[track].value.dts))
    ensures s.segment.Some? && s.segment.value.owner == track ==>
      FirstOf(OfSegment(s.segment.value), track).Some?
  {
    if s.segment.Some? && s.segment.value.owner == track && FirstOf(OfSegment(s.segment.value), track).None? {
      HeldFirstIsNotEarly(c, s, track);
    }
  }

  lemma WriteBounds(c: Config, s: State, track: nat, next: Sample)
    requires c.Valid() && track < |c.tracks| == |s.pending| && SegmentsInv(c, s) && BoundsInv(s)
    ensures BoundsInv(DoWrite(c, s, track, next))
  {
    var s1 := s.(hasVideo := s.hasVideo || c.tracks[track].isVideo, pending := s.pending[track := Some(next)]);
    if s.pending[track].None? || TooEarly(s, At(c, track, s.pending[track].value.dts)) {
      OwnerIsRecorded(c, s, track);
      UnrecordedBounds(s, s1, track);
    } else {
      var held := s.pending[track].value;
      var a := Arrival(track, Timed(held, next), At(c, track, held.dts));
      AcceptBounds(c, s, s1, held, a);
      if RollsOver(c, Accept(c, s1, a), track, next) { RollOverBounds(c, Accept(c, s1, a), track, next); }
    }
  }

  lemma UpdateCodecsBounds(s: State)
    requires BoundsInv(s)
    ensures BoundsInv(DoUpdateCodecs(s))
  {
    if s.segment.Some? {
      FlushedBounds(s.segment.value, s.segment.value.last);
      assert s.segment.value.(last := s.segment.value.last) == s.segment.value;
    }
  }

  /**
   * Over every run, for each segment: the first sample recorded of the track that opened it is the very sample it was
   * opened with, and that is the first sample of all unless it was opened by a rollover. A segment closed by a change
   * of codecs ends with the last sample recorded in it.
   */
  lemma {:induction false} RunKeepsBounds(c: Config, events: seq<Event>)
    requires c.Valid() && Proper(c, events)
    ensures BoundsInv(Run(c, events))
  {
    if events != [] {
      var before, e := events[..|events| - 1], events[|events| - 1];
      RunKeepsBounds(c, before);
      RunKeepsSegments(c, before);
      match e {
        case Write(track, next) => WriteBounds(c, Run(c, before), track, next);
        case UpdateCodecs => UpdateCodecsBounds(Run(c, before));
      }
    }
  }

  /** A change of codecs closes the segment exactly when one of its parts has been written: there is a second one. */
  lemma CodecChangeClosesExactlyWhen(c: Config, events: seq<Event>)
    requires c.Valid() && Proper(c, events)
    ensures var s, t := Run(c, events), Step(c, Run(c, events), UpdateCodecs);
      if s.segment.Some? && |PartsOf(s.segment.value)| >= 2
      then t.segment.None? && |t.files| == |s.files| + 1 && t.files[|s.files|].cause == CodecChange
      else t == s
  {
    RunKeepsSegments(c, events);
  }

  /** The latest of `last` and the times of the samples held. */
  ghost predicate IsLatest(c: Config, events: seq<Event>, last: int, at: int)
    requires c.Valid()
  {
    && last <= at
    && (forall i :: 0 <= i < |c.tracks| && Held(events, i).Some? ==> At(c, i, Held(events, i).value.dts) <= at)
    && (at == last ||
        exists i :: 0 <= i < |c.tracks| && Held(events, i).Some? && at == At(c, i, Held(events, i).value.dts))
  }

  ghost predicate IsLatestOf(c: Config, pending: seq<Option<Sample>>, last: int, at: int)
    requires c.Valid() && |pending| <= |c.tracks|
  {
    && last <= at
    && (forall i :: 0 <= i < |pending| && pending[i].Some? ==> At(c, i, pending[i].value.dts) <= at)
    && (at == last || exists i :: 0 <= i < |pending| && pending[i].Some? && at == At(c, i, pending[i].value.dts))
  }

  lemma {:induction false} LatestHeldIsLatest(c: Config, pending: seq<Option<Sample>>, last: int)
    requires c.Valid() && |pending| <= |c.tracks|
    ensures IsLatestOf(c, pending, last, LatestHeld(c, pending, last))
  {
    if pending != [] {
      var n := |pending| - 1;
      LatestHeldIsLatest(c, pending[..n], last);
      var before := LatestHeld(c, pending[..n], last);
      forall i | 0 <= i < n && pending[i].Some? ensures At(c, i, pending[i].value.dts) <= before {
        assert pending[..n][i] == pending[i];
      }
      if before != last {
        var i :| 0 <= i < n && pending[..n][i].Some? && before == At(c, i, pending[..n][i].value.dts);
        assert pending[i].Some? && before == At(c, i, pending[i].value.dts);
      }
    }
  }

  /**
   * The end of a recording closes the open segment, whose duration reaches to the latest of the samples it has recorded
   * and those that the tracks still hold.
   */
  lemma CloseEndsAtLatest(c: Config, events: seq<Event>)
    requires c.Valid() && Proper(c, events) && Run(c, events).segment.Some?
    ensures var s, t := Run(c, events), Close(c, Run(c, events));
      && |t.files| == |s.files| + 1 && t.segment.None?
      && IsLatest(c, events, LastAt(s.segment.value), t.files[|s.files|].segment.last)
  {
    var s := Run(c, events);
    RunKeepsBounds(c, events);
    LatestHeldIsLatest(c, s.pending, s.segment.value.last);
    var at := LatestHeld(c, s.pending, s.segment.value.last);
    FlushedBounds(s.segment.value, at);
    forall i | 0 <= i < |c.tracks| ensures s.pending[i] == Held(events, i) { RunHolds(c, events, i); }
    if at != LastAt(s.segment.value) {
      var i :| 0 <= i < |s.pending| && s.pending[i].Some? && at == At(c, i, s.pending[i].value.dts);
      assert Held(events, i).Some? && at == At(c, i, Held(events, i).value.dts);
    }
  }
}
