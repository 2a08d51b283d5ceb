/** A recording in which a base time is one tick short. */
module RecorderExample {
  import opened Common
  import opened Timestamps
  import opened RecorderSpec
  import opened RecorderSafety

  /** One video track at 90000 ticks a second, parts of one second. */
  const CONFIG := Config([Track(90000, true)], SECOND, 10 * SECOND)

  /** A sample whose contents do not matter. */
  function Plain(dts: int): Sample {
    Sample(dts, 0, false, 0, 0)
  }

  lemma RunOneMore(c: Config, events: seq<Event>, e: Event)
    requires c.Valid() && Proper(c, events + [e])
    ensures Proper(c, events) && Run(c, events + [e]) == Step(c, Run(c, events), e)
  {
    assert (events + [e])[..|events|] == events;
    assert forall i :: 0 <= i < |events| ==> events[i] == (events + [e])[i];
  }

  predicate AfterOne(s: State) {
    s.pending == [Some(Plain(0))] && s.segment.None?
  }

  /** The segment starts at 0, and its only part has a last sample at `end`. */
  predicate InFirstPart(s: State, held: int, end: int) {
    && s.pending == [Some(Plain(held))] && s.segment.Some?
    && s.segment.value.start == 0 && s.segment.value.first.dts == 0
    && s.segment.value.current.Some?
    && s.segment.value.current.value.start == 0 && s.segment.value.current.value.arrivals != []
    && EndOf(s.segment.value.current.value) == end
  }

  /** The second part has been opened with the sample at 180002 ticks. */
  predicate InSecondPart(s: State) {
    && s.segment.Some? && s.segment.value.start == 0 && s.segment.value.first.dts == 0
    && s.segment.value.current.Some?
    && s.segment.value.current.value.arrivals == [Arrival(0, Timed(Plain(180002), Plain(270003)), 2_000_022_222)]
  }

  /** What matters of the configuration: the two durations, and what the conversions give for the samples. */
  predicate Like(c: Config) {
    && c.Valid() && |c.tracks| == 1 && c.partDuration == SECOND && c.segmentDuration == 10 * SECOND
    && At(c, 0, 0) == 0 && At(c, 0, 90001) == 1_000_011_111
    && At(c, 0, 180002) == 2_000_022_222 && At(c, 0, 270003) == 3_000_033_333
    && ToTicks(2_000_022_222, c.tracks[0].timeScale) == 180001
  }

  lemma ConfigIsLike()
    ensures Like(CONFIG)
  {
    Durations();
    Ticks();
  }

  lemma Durations()
    ensures ToDuration(0, 90000) == 0 && ToDuration(90001, 90000) == 1_000_011_111
    ensures ToDuration(180002, 90000) == 2_000_022_222 && ToDuration(270003, 90000) == 3_000_033_333
  {
    DurationIs(0, 90000, 0);
    DurationIs(90001, 90000, 1_000_011_111);
    DurationIs(180002, 90000, 2_000_022_222);
    DurationIs(270003, 90000, 3_000_033_333);
  }

  lemma First(c: Config)
    requires Like(c)
    ensures AfterOne(DoWrite(c, Start(c), 0, Plain(0)))
  {
  }

  /** A sample that is neither too early nor followed by a rollover is accepted. */
  lemma Accepted(c: Config, s: State, held: Sample, next: Sample, a: Arrival)
    requires c.Valid() && |c.tracks| == 1 && s.pending == [Some(held)]
    requires a == Arrival(0, Timed(held, next), At(c, 0, held.dts)) && !TooEarly(s, a.at)
    requires At(c, 0, next.dts) - Target(s, a).start < c.segmentDuration
    ensures var t := DoWrite(c, s, 0, next);
      t.pending == [Some(next)] && t.segment == Some(Put(c, Target(s, a), s.nextNumber, a))
  {
  }

  lemma Second(c: Config, s: State)
    requires Like(c) && AfterOne(s)
    ensures InFirstPart(DoWrite(c, s, 0, Plain(90001)), 90001, 0)
  {
    Accepted(c, s, Plain(0), Plain(90001), Arrival(0, Timed(Plain(0), Plain(90001)), At(c, 0, 0)));
  }

  lemma Third(c: Config, s: State)
    requires Like(c) && InFirstPart(s, 90001, 0)
    ensures InFirstPart(DoWrite(c, s, 0, Plain(180002)), 180002, 1_000_011_111)
  {
    Accepted(c, s, Plain(90001), Plain(180002), Arrival(0, Timed(Plain(90001), Plain(180002)), At(c, 0, 90001)));
  }

  lemma Fourth(c: Config, s: State)
    requires Like(c) && InFirstPart(s, 180002, 1_000_011_111)
    ensures InSecondPart(DoWrite(c, s, 0, Plain(270003)))
  {
    Accepted(c, s, Plain(180002), Plain(270003), Arrival(0, Timed(Plain(180002), Plain(270003)), At(c, 0, 180002)));
  }

  const EVENTS := [Write(0, Plain(0)), Write(0, Plain(90001)), Write(0, Plain(180002)), Write(0, Plain(270003))]

  lemma RunOpensSecondPart(c: Config)
    requires Like(c)
    ensures Proper(c, EVENTS) && InSecondPart(Run(c, EVENTS))
  {
    var e0, e1, e2, e3 := EVENTS[0], EVENTS[1], EVENTS[2], EVENTS[3];
    assert [] + [e0] == [e0] && [e0] + [e1] == [e0, e1] && [e0, e1] + [e2] == [e0, e1, e2];
    assert [e0, e1, e2] + [e3] == EVENTS;
    RunOneMore(c, [], e0);
    First(c);
    RunOneMore(c, [e0], e1);
    Second(c, Run(c, [e0]));
    RunOneMore(c, [e0, e1], e2);
    Third(c, Run(c, [e0, e1]));
    RunOneMore(c, [e0, e1, e2], e3);
    Fourth(c, Run(c, [e0, e1, e2]));
  }

  lemma Ticks()
    ensures ToTicks(2_000_022_222, 90000) == 180001
  {
    TicksAre(2_000_022_222, 90000, 180001);
  }

  lemma ShortBaseTime(c: Config)
    requires Like(c)
    ensures Proper(c, EVENTS) && Shows(c, Run(c, EVENTS))
  {
    RunOpensSecondPart(c);
  }

  /** The second part starts with the sample at 180002 ticks, and its base time is 180001. */
  predicate Shows(c: Config, s: State) {
    && c.Valid() && |c.tracks| == 1 && InSecondPart(s)
    && BaseTime(c, s.segment.value, s.segment.value.current.value.arrivals[0]) == 180001
  }

  /** Four samples 90001 ticks apart show it. */
  lemma BaseTimeCanBeShort()
    ensures Proper(CONFIG, EVENTS) && Shows(CONFIG, Run(CONFIG, EVENTS))
  {
    ConfigIsLike();
    ShortBaseTime(CONFIG);
  }
}
