/** Who gets which reply (core/path.go): each reply of a step, with the exact condition under which it is given. */
module PathReplies {
  import opened Common
  import opened PathConf
  import opened PathSpec
  import opened PathSafety

  // The answers of one step

  lemma {:induction false} AddReadersAnswer(s: State, hold: seq<ReaderReq>)
    requires s.link.stream.Some?
    ensures s.books.answers <= AddReaders(s, hold).books.answers
    ensures |AddReaders(s, hold).books.answers| == |s.books.answers| + |hold|
    decreases |hold|
  {
    if hold != [] { AddReadersAnswer(s, hold[..|hold| - 1]); }
  }

  lemma ReadyStepsAnswer(s: State, e: Event)
    requires e.StaticSetReady? || e.StartPublisher?
    ensures e.StaticSetReady? ==> s.books.answers <= DoStaticSetReady(s, e.req, e.outcome).books.answers
    ensures e.StartPublisher? ==> s.books.answers <= DoStartPublisher(s, e.req, e.publisher, e.outcome).books.answers
  {
    forall t: State, hold | t.link.stream.Some? ensures t.books.answers <= AddReaders(t, hold).books.answers {
      AddReadersAnswer(t, hold);
    }
  }

  lemma StepAnswers(s: State, e: Event)
    requires CanStep(s, e)
    ensures s.books.answers <= Step(s, e).books.answers
  {
    if e.StaticSetReady? || e.StartPublisher? { ReadyStepsAnswer(Receive(s, e), e); }
  }

  /** What a step answers. */
  function New(s: State, e: Event): seq<Answer>
    requires CanStep(s, e)
  {
    StepAnswers(s, e);
    Step(s, e).books.answers[|s.books.answers|..]
  }

  /** In this step the request is answered like this. */
  predicate Gets(s: State, e: Event, req: ReqId, reply: Reply)
    requires CanStep(s, e)
  {
    Answer(req, reply) in New(s, e)
  }

  /** The request of the event is the only one that is answered, if any. */
  predicate OnlyItsOwn(s: State, e: Event)
    requires CanStep(s, e) && !Silent(e)
  {
    |New(s, e)| <= 1 && forall a <- New(s, e) :: a.req == e.req
  }

  /** A stream can be asked for: of a static source on demand, or of a publisher by running a command. */
  predicate ServesOnDemand(s: State) {
    (s.conf.source.FromStatic? && s.conf.sourceOnDemand) || s.conf.runOnDemand.Some?
  }

  // Describe

  /** The address that stands in for a path without a stream; one that begins with a slash is relative to the base. */
  function StandIn(s: State, base: string): string
    requires s.conf.fallback.Some?
  {
    var f := s.conf.fallback.value;
    if |f| > 0 && f[0] == '/' then base + f else f
  }

  /**
   * A describe is redirected if the source is a redirect, or if there is neither stream nor demand but a fallback; it
   * gets the stream if there is one; it is held if there is none but can be demanded; otherwise nobody is publishing.
   */
  lemma DescribeGets(s: State, e: Event, url: string, stream: nat)
    requires CanStep(s, e) && e.Describe?
    ensures OnlyItsOwn(s, e)
    ensures Gets(s, e, e.req, Redirected(url)) <==>
            || (s.conf.source.FromRedirect? && url == s.conf.sourceRedirect)
            || (!s.conf.source.FromRedirect? && s.link.stream.None? && !ServesOnDemand(s) && s.conf.fallback.Some? &&
                url == StandIn(s, e.base))
    ensures Gets(s, e, e.req, GotStream(stream)) <==> s.link.stream == Some(stream)
    ensures Gets(s, e, e.req, Refused(NoOnePublishing)) <==>
            !s.conf.source.FromRedirect? && s.link.stream.None? && !ServesOnDemand(s) && s.conf.fallback.None?
    ensures New(s, e) == [] <==> !s.conf.source.FromRedirect? && s.link.stream.None? && ServesOnDemand(s)
    ensures Step(s, e).hold ==
            if New(s, e) == [] then s.hold.(describes := s.hold.describes + [e.req]) else s.hold
  {
    assert s.conf.source.FromRedirect? <==> s.supply.source.Redirect?;
  }

  // Add reader

  predicate Full(s: State) {
    s.conf.maxReaders != 0 && |s.crowd.readers| >= s.conf.maxReaders
  }

  /**
   * A reader gets the stream if there is one and it is known already or there is room for it; then it is one of the
   * readers. It is held if there is no stream but one can be demanded.
   */
  lemma AddReaderGets(s: State, e: Event, stream: nat)
    requires CanStep(s, e) && e.AddReader?
    ensures OnlyItsOwn(s, e)
    ensures Gets(s, e, e.req, GotStream(stream)) <==>
            s.link.stream == Some(stream) && (e.reader in s.crowd.readers || !Full(s))
    ensures Gets(s, e, e.req, Refused(TooManyReaders)) <==>
            s.link.stream.Some? && e.reader !in s.crowd.readers && Full(s)
    ensures Gets(s, e, e.req, Refused(NoOnePublishing)) <==> s.link.stream.None? && !ServesOnDemand(s)
    ensures New(s, e) == [] <==> s.link.stream.None? && ServesOnDemand(s)
    ensures Step(s, e).hold ==
            if New(s, e) == [] then s.hold.(readers := s.hold.readers + [ReaderReq(e.req, e.reader)]) else s.hold
    ensures Step(s, e).crowd.readers ==
            s.crowd.readers + if exists k :: Gets(s, e, e.req, GotStream(k)) then {e.reader} else {}
  {
    if s.link.stream.Some? {
      if e.reader in s.crowd.readers || !Full(s) {
        assert Gets(s, e, e.req, GotStream(s.link.stream.value));
      }
    }
  }

  // A stream for those on hold

  /** A path has been made ready, by its source or by the publisher it has. */
  predicate CreatesStream(s: State, e: Event) {
    (e.StaticSetReady? || (e.StartPublisher? && s.supply.source == Publisher(e.publisher))) && e.outcome.Created?
  }

  /** A reader that has waited is answered with the stream if it is one of the readers now, otherwise refused. */
  function ReplyTo(r: ReaderReq, stream: nat, readers: set<ReaderId>): Answer {
    Answer(r.req, if r.author in readers then GotStream(stream) else Refused(TooManyReaders))
  }

  /** Who is let in: nobody leaves, only those who waited come, and nobody is refused before somebody else is let in. */
  ghost predicate LetIn(s: State, hold: seq<ReaderReq>, t: State) {
    && s.crowd.readers <= t.crowd.readers
    && (forall r <- t.crowd.readers :: r in s.crowd.readers || exists i :: 0 <= i < |hold| && hold[i].author == r)
    && (forall i :: 0 <= i < |hold| && hold[i].author !in t.crowd.readers ==>
          Full(t) && WaitedBefore(s, hold, i, t.crowd.readers))
  }

  /** All of these were readers before, or are among the first `i` that waited. */
  ghost predicate WaitedBefore(s: State, hold: seq<ReaderReq>, i: nat, readers: set<ReaderId>)
    requires i <= |hold|
  {
    forall r <- readers :: r in s.crowd.readers || exists j :: 0 <= j < i && hold[j].author == r
  }

  lemma LetInOneMore(s: State, hold: seq<ReaderReq>, t: State, r: ReaderReq, u: State)
    requires LetIn(s, hold, t) && u.conf == t.conf
    requires u.crowd.readers == t.crowd.readers + if Full(t) then {} else {r.author}
    ensures LetIn(s, hold + [r], u)
    ensures forall i :: 0 <= i < |hold| ==> (hold[i].author in u.crowd.readers <==> hold[i].author in t.crowd.readers)
    ensures r.author !in u.crowd.readers ==> Full(t)
  {
    var all := hold + [r];
    assert all[|hold|] == r && forall i :: 0 <= i < |hold| ==> all[i] == hold[i];
    forall q | q in u.crowd.readers
      ensures q in s.crowd.readers || exists i :: 0 <= i < |all| && all[i].author == q
    {
      if q in t.crowd.readers && q !in s.crowd.readers {
        var i :| 0 <= i < |hold| && hold[i].author == q;
        assert all[i].author == q;
      }
    }
    forall i | 0 <= i < |all| && all[i].author !in u.crowd.readers
      ensures Full(u) && WaitedBefore(s, all, i, u.crowd.readers)
    {
      if i == |hold| {
        assert Full(t);
      } else {
        assert hold[i].author !in t.crowd.readers;
        assert WaitedBefore(s, hold, i, t.crowd.readers);
      }
      WaitedInLonger(s, hold, r, i, u.crowd.readers);
    }
  }

  lemma WaitedInLonger(s: State, hold: seq<ReaderReq>, r: ReaderReq, i: nat, readers: set<ReaderId>)
    requires i <= |hold| && WaitedBefore(s, hold, i, readers)
    ensures WaitedBefore(s, hold + [r], i, readers)
  {
    assert forall j :: 0 <= j < i ==> (hold + [r])[j] == hold[j];
  }

  lemma {:induction false} HeldReadersGet(s: State, hold: seq<ReaderReq>)
    requires s.link.stream.Some?
    ensures var t := AddReaders(s, hold);
      && |t.books.answers| == |s.books.answers| + |hold| && s.books.answers <= t.books.answers
      && LetIn(s, hold, t)
      && forall i :: 0 <= i < |hold| ==>
           t.books.answers[|s.books.answers| + i] == ReplyTo(hold[i], s.link.stream.value, t.crowd.readers)
    decreases |hold|
  {
    AddReadersAnswer(s, hold);
    if hold != [] {
      var n := |hold| - 1;
      HeldReadersGet(s, hold[..n]);
      var t, u := AddReaders(s, hold[..n]), AddReaders(s, hold);
      assert hold[..n] + [hold[n]] == hold;
      NextReaderGets(t, hold[n]);
      LetInOneMore(s, hold[..n], t, hold[n], u);
      forall i | 0 <= i < |hold|
        ensures u.books.answers[|s.books.answers| + i] == ReplyTo(hold[i], s.link.stream.value, u.crowd.readers)
      {
        if i < n { assert hold[..n][i] == hold[i]; }
      }
    }
  }

  lemma NextReaderGets(t: State, r: ReaderReq)
    requires t.link.stream.Some?
    ensures var u := AddReaderPost(t, r);
      && u.conf == t.conf
      && u.crowd.readers == t.crowd.readers + (if Full(t) then {} else {r.author})
      && u.books.answers == t.books.answers + [ReplyTo(r, t.link.stream.value, u.crowd.readers)]
  {
  }

  lemma ConsumeHeldAnswers(s: State)
    requires s.link.stream.Some?
    ensures var t, d, n := ConsumeHeld(s), |s.hold.describes|, |s.hold.readers|;
      && s.books.answers <= t.books.answers && |t.books.answers| == |s.books.answers| + d + n
      && LetIn(s, s.hold.readers, t) && t.hold == NOBODY && t.link == s.link
      && AllServed(s.hold, t.books.answers[|s.books.answers|..], s.link.stream.value, t.crowd.readers)
  {
    var answers := s.books.answers + AnswersTo(s.hold.describes, GotStream(s.link.stream.value));
    var u := s.(books := s.books.(answers := answers), hold := NOBODY);
    HeldReadersGet(u, s.hold.readers);
    SameCrowdLetIn(u, s, s.hold.readers, ConsumeHeld(s));
    ServedInTurn(s.hold, s.books.answers, ConsumeHeld(s).books.answers, s.link.stream.value,
                 ConsumeHeld(s).crowd.readers);
  }

  /** First the describes, then the readers. */
  lemma ServedInTurn(h: Hold, before: seq<Answer>, after: seq<Answer>, stream: nat, readers: set<ReaderId>)
    requires before + AnswersTo(h.describes, GotStream(stream)) <= after
    requires |after| == |before| + |h.describes| + |h.readers|
    requires forall i :: 0 <= i < |h.readers| ==>
      after[|before + AnswersTo(h.describes, GotStream(stream))| + i] == ReplyTo(h.readers[i], stream, readers)
    ensures before <= after && AllServed(h, after[|before|..], stream, readers)
  {
    var answers, d := after[|before|..], AnswersTo(h.describes, GotStream(stream));
    forall i | 0 <= i < |d| ensures answers[i] == d[i] {
      assert after[|before| + i] == (before + d)[|before| + i];
    }
    forall i | 0 <= i < |h.readers|
      ensures answers[|h.describes| + i] == ReplyTo(h.readers[i], stream, readers)
    {
      assert after[|before + d| + i] == answers[|h.describes| + i];
    }
  }

  lemma SameCrowdLetIn(u: State, s: State, hold: seq<ReaderReq>, t: State)
    requires LetIn(u, hold, t) && u.crowd == s.crowd
    ensures LetIn(s, hold, t)
  {
    forall i | 0 <= i < |hold| && hold[i].author !in t.crowd.readers
      ensures Full(t) && WaitedBefore(s, hold, i, t.crowd.readers)
    {
      assert WaitedBefore(u, hold, i, t.crowd.readers);
    }
  }

  /** Describes get the stream, readers what `ReplyTo` says, in the order in which they came. */
  predicate AllServed(h: Hold, answers: seq<Answer>, stream: nat, readers: set<ReaderId>) {
    && |answers| >= |h.describes| + |h.readers|
    && (forall i :: 0 <= i < |h.describes| ==> answers[i] == Answer(h.describes[i], GotStream(stream)))
    && (forall i :: 0 <= i < |h.readers| ==> answers[|h.describes| + i] == ReplyTo(h.readers[i], stream, readers))
  }

  /** The path as it is made ready, before it turns to those on hold. */
  predicate MadeReady(s: State, u: State) {
    && u.link.stream == Some(s.link.hooks.issued)
    && u.hold == s.hold && u.crowd == s.crowd && u.books.answers == s.books.answers
  }

  lemma SourceMakesReady(s: State, e: Event) returns (u: State)
    requires CanStep(s, e) && e.StaticSetReady? && e.outcome.Created?
    ensures MadeReady(s, u) && Step(s, e) == SayIn(ConsumeHeld(u), e.req, GotStream(s.link.hooks.issued))
  {
    var r := Receive(s, e);
    var demand :=
      if r.conf.HasOnDemandStaticSource() then r.demand.(source := Awakened(r.demand.source)) else r.demand;
    u := r.(link := SetReady(r.link, r.conf.record, Created), demand := demand,
            supply := r.supply.(sourceReady := true));
  }

  lemma PublisherMakesReady(s: State, e: Event) returns (u: State)
    requires CanStep(s, e) && CreatesStream(s, e) && e.StartPublisher?
    ensures MadeReady(s, u) && Step(s, e) == SayIn(ConsumeHeld(u), e.req, GotStream(s.link.hooks.issued))
  {
    var r := Receive(s, e);
    var demand :=
      if r.conf.HasOnDemandPublisher() && r.demand.publisher.state != Initial
      then r.demand.(publisher := Awakened(r.demand.publisher)) else r.demand;
    u := r.(link := SetReady(r.link, r.conf.record, Created), demand := demand,
            supply := r.supply.(started := r.supply.started + {e.publisher}));
  }

  lemma MadeReadyServes(s: State, u: State)
    requires MadeReady(s, u)
    ensures var t, n := ConsumeHeld(u), |s.hold.describes| + |s.hold.readers|;
      && s.books.answers <= t.books.answers && |t.books.answers| == |s.books.answers| + n
      && AllServed(s.hold, t.books.answers[|s.books.answers|..], s.link.hooks.issued, t.crowd.readers)
      && LetIn(s, s.hold.readers, t) && t.hold == NOBODY && t.link == u.link
  {
    ConsumeHeldAnswers(u);
    SameCrowdLetIn(u, s, s.hold.readers, ConsumeHeld(u));
  }

  lemma OneAnswerMore(h: Hold, before: seq<Answer>, after: seq<Answer>, a: Answer, stream: nat, readers: set<ReaderId>)
    requires before <= after && AllServed(h, after[|before|..], stream, readers)
    ensures (after + [a])[|before|..] == after[|before|..] + [a]
    ensures AllServed(h, (after + [a])[|before|..], stream, readers)
  {
  }

  lemma CreatingStepIs(s: State, e: Event) returns (u: State)
    requires CanStep(s, e) && CreatesStream(s, e)
    ensures MadeReady(s, u) && Step(s, e) == SayIn(ConsumeHeld(u), e.req, GotStream(s.link.hooks.issued))
  {
    if e.StaticSetReady? { u := SourceMakesReady(s, e); } else { u := PublisherMakesReady(s, e); }
  }

  /**
   * A new stream is given to everybody on hold: to each describe, and to each reader as long as there is room, first
   * come, first served. After them the one who has made the path ready gets it, and nobody else gets anything.
   */
  lemma NewStreamGoesToAll(s: State, e: Event)
    requires CanStep(s, e) && CreatesStream(s, e)
    ensures var t, n := Step(s, e), |s.hold.describes| + |s.hold.readers|;
      && t.link.stream == Some(s.link.hooks.issued)
      && |New(s, e)| == n + 1 && New(s, e)[n] == Answer(e.req, GotStream(s.link.hooks.issued))
      && AllServed(s.hold, New(s, e), s.link.hooks.issued, t.crowd.readers)
      && LetIn(s, s.hold.readers, t) && t.hold == NOBODY
  {
    var u := CreatingStepIs(s, e);
    MadeReadyServes(s, u);
    var c, last := ConsumeHeld(u), Answer(e.req, GotStream(s.link.hooks.issued));
    OneAnswerMore(s.hold, s.books.answers, c.books.answers, last, s.link.hooks.issued, c.crowd.readers);
    LetInLater(s, s.hold.readers, c, Step(s, e));
  }

  lemma LetInLater(s: State, hold: seq<ReaderReq>, t: State, w: State)
    requires LetIn(s, hold, t) && w.crowd == t.crowd && w.conf == t.conf
    ensures LetIn(s, hold, w)
  {
    forall i | 0 <= i < |hold| && hold[i].author !in w.crowd.readers
      ensures Full(w) && WaitedBefore(s, hold, i, w.crowd.readers)
    {
      assert WaitedBefore(s, hold, i, t.crowd.readers);
    }
  }

  // Everything else

  predicate IsHeld(h: Hold, req: ReqId) {
    req in h.describes || exists i :: 0 <= i < |h.readers| && h.readers[i].req == req
  }

  predicate ReadyTimerFires(e: Event) {
    e.StaticReadyTimer? || e.PubReadyTimer?
  }

  /** A ready timer answers all those on hold, and nobody else; no other silent event answers anybody. */
  lemma SilentEventsAnswer(s: State, e: Event, req: ReqId, reply: Reply)
    requires CanStep(s, e) && Silent(e)
    ensures Gets(s, e, req, reply) <==> ReadyTimerFires(e) && IsHeld(s.hold, req) && reply == Refused(TimedOut)
    ensures Step(s, e).hold == if ReadyTimerFires(e) then NOBODY else s.hold
  {
    var d, m := AnswersTo(s.hold.describes, Refused(TimedOut)), AnswersTo(ReqsOf(s.hold.readers), Refused(TimedOut));
    if ReadyTimerFires(e) {
      assert New(s, e) == d + m;
      HeldAreAnswered(s.hold, TimedOut, req, reply);
    } else {
      assert New(s, e) == [];
    }
  }

  lemma HeldAreAnswered(h: Hold, why: Error, req: ReqId, reply: Reply)
    ensures Answer(req, reply) in AnswersTo(h.describes, Refused(why)) + AnswersTo(ReqsOf(h.readers), Refused(why)) <==>
            IsHeld(h, req) && reply == Refused(why)
  {
    var d, m := AnswersTo(h.describes, Refused(why)), AnswersTo(ReqsOf(h.readers), Refused(why));
    if req in h.describes {
      var i :| 0 <= i < |h.describes| && h.describes[i] == req;
      assert d[i] == Answer(req, Refused(why));
    }
    if i :| 0 <= i < |h.readers| && h.readers[i].req == req {
      assert m[i] == Answer(req, Refused(why));
    }
  }

  /** The end of the path refuses those that are still on hold, and nobody else. */
  lemma TerminateAnswers(s: State, req: ReqId, reply: Reply)
    requires Basic(s)
    ensures var answers := Terminate(s).books.answers;
      && s.books.answers <= answers
      && (Answer(req, reply) in answers[|s.books.answers|..] <==>
          IsHeld(s.hold, req) && reply == Refused(Terminated))
  {
    HeldAreAnswered(s.hold, Terminated, req, reply);
    assert Terminate(s).books.answers[|s.books.answers|..] ==
      AnswersTo(s.hold.describes, Refused(Terminated)) + AnswersTo(ReqsOf(s.hold.readers), Refused(Terminated));
  }

  /** A publisher that asks for the path. */
  lemma AddPublisherGets(s: State, e: Event)
    requires CanStep(s, e) && e.AddPublisher?
    ensures |New(s, e)| == 1 && OnlyItsOwn(s, e)
    ensures Gets(s, e, e.req, Refused(NotAPublisherPath)) <==> !s.conf.source.FromPublisher?
    ensures Gets(s, e, e.req, Refused(AlreadyPublishing)) <==>
            s.conf.source.FromPublisher? && s.supply.source.Publisher? && !s.conf.overridePublisher
    ensures Gets(s, e, e.req, GotPath) <==>
            s.conf.source.FromPublisher? && (s.supply.source.NoSource? || s.conf.overridePublisher)
  {
  }

  /** A path that cannot be made ready, or not by this publisher. */
  lemma FailedStartGets(s: State, e: Event)
    requires CanStep(s, e) && (e.StaticSetReady? || e.StartPublisher?) && !CreatesStream(s, e)
    ensures New(s, e) ==
      [Answer(e.req, Refused(if e.StartPublisher? && s.supply.source != Publisher(e.publisher)
                             then NotAssignedAnymore else CannotStart))]
    ensures Step(s, e).hold == s.hold
  {
  }

  /** The other events are acknowledged. */
  lemma OthersAreDone(s: State, e: Event)
    requires CanStep(s, e)
    requires e.StaticSetNotReady? || e.RemovePublisher? || e.StopPublisher? || e.RemoveReader?
    ensures New(s, e) == [Answer(e.req, Done)] && Step(s, e).hold == s.hold
  {
  }

  // Refusals, over all events

  lemma ServedGetStreamOrFull(h: Hold, answers: seq<Answer>, stream: nat, readers: set<ReaderId>, i: nat)
    requires AllServed(h, answers, stream, readers) && i < |h.describes| + |h.readers|
    ensures answers[i].reply.Refused? ==> answers[i].reply.why == TooManyReaders
  {
    if i >= |h.describes| {
      assert answers[|h.describes| + (i - |h.describes|)] == ReplyTo(h.readers[i - |h.describes|], stream, readers);
    }
  }

  lemma NewStreamRefuses(s: State, e: Event, req: ReqId, why: Error)
    requires CanStep(s, e) && CreatesStream(s, e) && Gets(s, e, req, Refused(why))
    ensures why == TooManyReaders
  {
    NewStreamGoesToAll(s, e);
    var i :| 0 <= i < |New(s, e)| && New(s, e)[i] == Answer(req, Refused(why));
    if i < |New(s, e)| - 1 {
      ServedGetStreamOrFull(s.hold, New(s, e), s.link.hooks.issued, Step(s, e).crowd.readers, i);
    }
  }

  /** Nobody is timed out but those on hold when a ready timer fires. */
  lemma TimedOutExactlyWhen(s: State, e: Event, req: ReqId)
    requires CanStep(s, e)
    ensures Gets(s, e, req, Refused(TimedOut)) <==> ReadyTimerFires(e) && IsHeld(s.hold, req)
  {
    if Gets(s, e, req, Refused(TimedOut)) { RefusedOnlyFor(s, e, req, TimedOut); }
    if Silent(e) { SilentEventsAnswer(s, e, req, Refused(TimedOut)); }
  }

  /** Which event each refusal belongs to. */
  predicate CanBeRefusedFor(e: Event, why: Error) {
    match why
    case TimedOut => ReadyTimerFires(e)
    case Terminated => false
    case NoOnePublishing => e.Describe? || e.AddReader?
    case NotAPublisherPath | AlreadyPublishing => e.AddPublisher?
    case NotAssignedAnymore => e.StartPublisher?
    case TooManyReaders => e.AddReader? || e.StaticSetReady? || e.StartPublisher?
    case CannotStart => e.StaticSetReady? || e.StartPublisher?
  }

  lemma RefusedOnlyFor(s: State, e: Event, req: ReqId, why: Error)
    requires CanStep(s, e) && Gets(s, e, req, Refused(why))
    ensures CanBeRefusedFor(e, why)
  {
    if Silent(e) {
      SilentEventsAnswer(s, e, req, Refused(why));
    } else if e.StaticSetReady? || e.StartPublisher? {
      if CreatesStream(s, e) { NewStreamRefuses(s, e, req, why); } else { FailedStartGets(s, e); }
    } else {
      RequestRefusedOnlyFor(s, e, req, why);
    }
  }

  lemma RequestRefusedOnlyFor(s: State, e: Event, req: ReqId, why: Error)
    requires CanStep(s, e) && Gets(s, e, req, Refused(why)) && !Silent(e) && !e.StaticSetReady? && !e.StartPublisher?
    ensures CanBeRefusedFor(e, why)
  {
    if e.Describe? {
      DescribeGets(s, e, "", 0);
    } else if e.AddReader? {
      AddReaderGets(s, e, 0);
    } else if e.AddPublisher? {
      AddPublisherGets(s, e);
    } else {
      OthersAreDone(s, e);
    }
  }
}
