/** How long a request stays on hold (core/path.go): which held requests have a timer that will end their wait. */
module PathHolds {
  import opened PathConf
  import opened PathSpec
  import opened PathSafety
  import opened PathRuns

  /** A ready timer refuses everything on hold when it fires; a close timer does not. */
  predicate ReadyTimerArmed(s: State) {
    s.demand.source.readyTimer || s.demand.publisher.readyTimer
  }

  predicate TimerArmed(s: State) {
    ReadyTimerArmed(s) || s.demand.source.closeTimer || s.demand.publisher.closeTimer
  }

  /** There is a new stream for those on hold. */
  predicate BringsStream(s: State, e: Event) {
    (e.StaticSetReady? || (e.StartPublisher? && s.supply.source == Publisher(e.publisher))) && e.outcome.Created?
  }

  /** Exactly a ready timer and a new stream end the wait; any other event leaves everybody on hold. */
  lemma WaitEndsExactlyBy(s: State, e: Event)
    requires CanStep(s, e) && !s.hold.Empty()
    ensures var h := Step(s, e).hold;
      if e.StaticReadyTimer? || e.PubReadyTimer? || BringsStream(s, e) then h == NOBODY
      else s.hold.describes <= h.describes && s.hold.readers <= h.readers
  {
  }

  /** The machine that those on hold wait for. */
  function Awaited(s: State): OnDemand {
    if s.conf.HasOnDemandStaticSource() then s.demand.source else s.demand.publisher
  }

  /**
   * No timer will end the wait of those on hold exactly when the machine is not in the state waiting-ready: the
   * publisher has come and gone meanwhile, or a static source has lost its stream to an announcement that failed.
   */
  lemma HeldWithoutTimer(s: State)
    requires Basic(s) && !s.hold.Empty()
    ensures s.conf.HasOnDemandStaticSource() || s.conf.HasOnDemandPublisher()
    ensures !ReadyTimerArmed(s) <==> Awaited(s).state != WaitingReady
  {
  }

  /** A request that is put on hold is in that situation from the start exactly when the machine is ready or closing. */
  lemma PutOnHoldWithoutTimer(s: State, e: Event)
    requires CanStep(s, e) && (e.Describe? || e.AddReader?)
    requires |Step(s, e).hold.describes| + |Step(s, e).hold.readers| > |s.hold.describes| + |s.hold.readers|
    ensures !ReadyTimerArmed(Step(s, e)) <==> Awaited(s).state == Ready || Awaited(s).state == Closing
  {
    StepKeepsBasic(s, e);
  }

  /** In a static source on demand every held request has its timer, as long as no announcement has met a stream. */
  lemma HeldForStaticSourceHasTimer(conf: Conf, events: seq<Event>)
    requires conf.Valid() && (StartInv(conf); Admissible(Start(conf), events) && InOrder(Start(conf), events))
    ensures (StartInv(conf);
             var s := RunFrom(Start(conf), events);
             s.conf.HasOnDemandStaticSource() && !s.hold.Empty() ==> s.demand.source.readyTimer)
  {
    StartInv(conf);
    RunKeepsTidy(Start(conf), events);
  }

  /** Neither another request nor a new stream. */
  predicate Idle(events: seq<Event>) {
    forall i :: 0 <= i < |events| ==>
      && !events[i].Describe? && !events[i].AddReader?
      && !((events[i].StartPublisher? || events[i].StaticSetReady?) && events[i].outcome.Created?)
  }

  lemma IdleStepKeepsHeld(s: State, e: Event)
    requires CanStep(s, e) && !s.hold.Empty() && !ReadyTimerArmed(s) && Idle([e])
    ensures Step(s, e).hold == s.hold && !ReadyTimerArmed(Step(s, e))
  {
    assert [e][0] == e;
    HeldWithoutTimer(s);
  }

  /** From then on only another request or a new stream can help: over any run of other events the wait goes on. */
  lemma {:induction false} HeldWithoutEnd(s: State, events: seq<Event>)
    requires Inv(s) && Admissible(s, events) && Idle(events)
    requires !s.hold.Empty() && !ReadyTimerArmed(s)
    ensures RunFrom(s, events).hold == s.hold && !ReadyTimerArmed(RunFrom(s, events))
    decreases |events|
  {
    if events != [] {
      assert [events[0]][0] == events[0];
      IdleStepKeepsHeld(s, events[0]);
      HeldWithoutEnd(Next(s, events[0]), events[1..]);
    }
  }

  // Two runs that get there

  predicate HeldWithNoTimer(s: State) {
    !s.hold.Empty() && !TimerArmed(s)
  }

  lemma OneTurn(s: State, e: Event, rest: seq<Event>)
    requires Inv(s) && Allowed(s, e) && (Leaves(e, Next(s, e)) ==> rest == []) && Admissible(Next(s, e), rest)
    ensures Admissible(s, [e] + rest) && RunFrom(s, [e] + rest) == RunFrom(Next(s, e), rest)
  {
    assert ([e] + rest)[1..] == rest;
  }

  /** Somebody waits for the publisher `p`, which has the path but does not publish yet. */
  predicate AwaitedBy(s: State, p: PublisherId, hold: Hold) {
    && s.conf.HasOnDemandPublisher()
    && s.demand.publisher.state == WaitingReady
    && s.hold == hold
    && s.supply.source == Publisher(p)
    && s.crowd.readers == {}
  }

  /** The publisher `p` publishes, nobody is on hold, and the machine is in the given state. */
  predicate ServedBy(s: State, p: PublisherId, state: OnDemandState) {
    && s.conf.HasOnDemandPublisher()
    && s.demand.publisher.state == state
    && s.link.stream.Some?
    && s.hold == NOBODY
    && s.supply.source == Publisher(p)
  }

  /** The request that both runs begin with, and what it puts on hold. */
  predicate IsFirst(first: Event, hold: Hold) {
    if hold.readers == [] then first == Describe(0, "") && hold == Hold([0], [])
    else first == AddReader(0, 9) && hold == Hold([], [ReaderReq(0, 9)])
  }

  lemma AwaitedAfterRequest(conf: Conf, first: Event, hold: Hold)
    requires conf.Valid() && conf.HasOnDemandPublisher() && Inv(Start(conf))
    requires IsFirst(first, hold)
    ensures Allowed(Start(conf), first)
    ensures var s := Next(Start(conf), first);
      !Leaves(first, s) && Allowed(s, AddPublisher(1, 7)) && AwaitedBy(Next(s, AddPublisher(1, 7)), 7, hold)
  {
  }

  /** Served from hold, a reader keeps the stream in use; a describe does not. */
  lemma ServesHeld(s: State, p: PublisherId, hold: Hold)
    requires Inv(s) && AwaitedBy(s, p, hold)
    requires hold == if hold.readers == [] then Hold([0], []) else Hold([], [ReaderReq(0, 9)])
    requires hold.readers != [] ==> s.conf.maxReaders >= 0
    ensures Allowed(s, StartPublisher(2, p, Created))
    ensures ServedBy(Next(s, StartPublisher(2, p, Created)), p, if hold.readers == [] then Closing else Ready)
  {
    var r := Receive(s, StartPublisher(2, p, Created));
    var demand := r.demand.(publisher := Awakened(r.demand.publisher));
    var supply := r.supply.(started := r.supply.started + {p});
    var u := r.(link := SetReady(r.link, r.conf.record, Created), demand := demand, supply := supply);
    var answers := u.books.answers + AnswersTo(hold.describes, GotStream(u.link.stream.value));
    var v := u.(books := u.books.(answers := answers), hold := NOBODY);
    if hold.readers != [] {
      assert hold.readers[..0] == [];
      assert AddReaders(v, hold.readers) == AddReaderPost(v, hold.readers[0]);
    }
    assert ConsumeHeld(u) == AddReaders(v, hold.readers);
  }

  lemma DropsWhileReady(s: State, p: PublisherId)
    requires Inv(s) && ServedBy(s, p, Ready)
    ensures var events := [StopPublisher(3, p), Describe(4, "")];
      Admissible(s, events) && HeldWithNoTimer(RunFrom(s, events))
  {
    var s1 := Next(s, StopPublisher(3, p));
    assert HeldWithNoTimer(Next(s1, Describe(4, "")));
    OneTurn(s1, Describe(4, ""), []);
    OneTurn(s, StopPublisher(3, p), [Describe(4, "")]);
    assert [StopPublisher(3, p), Describe(4, "")] == [StopPublisher(3, p)] + [Describe(4, "")];
  }

  lemma DropsWhileClosing(s: State, p: PublisherId)
    requires Inv(s) && ServedBy(s, p, Closing)
    ensures var events := [StopPublisher(3, p), Describe(4, ""), PubCloseTimer];
      Admissible(s, events) && HeldWithNoTimer(RunFrom(s, events))
  {
    var s1 := Next(s, StopPublisher(3, p));
    AsksWhileClosing(s1);
    OneTurn(s, StopPublisher(3, p), [Describe(4, ""), PubCloseTimer]);
    assert [StopPublisher(3, p), Describe(4, ""), PubCloseTimer] ==
      [StopPublisher(3, p)] + [Describe(4, ""), PubCloseTimer];
  }

  lemma AsksWhileClosing(s: State)
    requires Inv(s) && s.conf.HasOnDemandPublisher() && s.demand.publisher.state == Closing && s.link.stream.None?
    requires s.supply.source.Publisher?
    ensures var events := [Describe(4, ""), PubCloseTimer];
      Admissible(s, events) && HeldWithNoTimer(RunFrom(s, events))
  {
    var s1 := Next(s, Describe(4, ""));
    assert HeldWithNoTimer(Next(s1, PubCloseTimer));
    OneTurn(s1, PubCloseTimer, []);
    OneTurn(s, Describe(4, ""), [PubCloseTimer]);
    assert [Describe(4, ""), PubCloseTimer] == [Describe(4, "")] + [PubCloseTimer];
  }

  predicate CanBegin(conf: Conf, first: Event, hold: Hold) {
    && conf.Valid() && conf.HasOnDemandPublisher() && IsFirst(first, hold)
    && (hold.readers != [] ==> conf.maxReaders >= 0)
  }

  /** The state after the first request, the arrival of the publisher 7, and its start. */
  ghost function Begun(conf: Conf, first: Event, hold: Hold): (s: State)
    requires CanBegin(conf, first, hold)
    ensures Inv(s) && ServedBy(s, 7, if hold.readers == [] then Closing else Ready)
  {
    StartInv(conf);
    AwaitedAfterRequest(conf, first, hold);
    var t := Next(Next(Start(conf), first), AddPublisher(1, 7));
    ServesHeld(t, 7, hold);
    Next(t, StartPublisher(2, 7, Created))
  }

  lemma FromRequest(conf: Conf, first: Event, hold: Hold, rest: seq<Event>)
    requires CanBegin(conf, first, hold) && Admissible(Begun(conf, first, hold), rest)
    ensures (StartInv(conf);
             var events := [first, AddPublisher(1, 7), StartPublisher(2, 7, Created)] + rest;
             Admissible(Start(conf), events) &&
             RunFrom(Start(conf), events) == RunFrom(Begun(conf, first, hold), rest))
  {
    StartInv(conf);
    AwaitedAfterRequest(conf, first, hold);
    var s := Next(Start(conf), first);
    var t := Next(s, AddPublisher(1, 7));
    ServesHeld(t, 7, hold);
    OneTurn(t, StartPublisher(2, 7, Created), rest);
    OneTurn(s, AddPublisher(1, 7), [StartPublisher(2, 7, Created)] + rest);
    OneTurn(Start(conf), first, [AddPublisher(1, 7)] + ([StartPublisher(2, 7, Created)] + rest));
    Regrouped(first, AddPublisher(1, 7), StartPublisher(2, 7, Created), rest);
  }

  lemma Regrouped(a: Event, b: Event, c: Event, rest: seq<Event>)
    ensures [a] + ([b] + ([c] + rest)) == [a, b, c] + rest
  {
  }

  /** A publisher on demand serves a reader and drops while the reader is there, then a describe arrives. */
  lemma HeldAfterReady(conf: Conf)
    requires conf.Valid() && conf.HasOnDemandPublisher() && conf.maxReaders >= 0
    ensures (StartInv(conf);
             var events := [AddReader(0, 9), AddPublisher(1, 7), StartPublisher(2, 7, Created)] +
                           [StopPublisher(3, 7), Describe(4, "")];
             Admissible(Start(conf), events) && HeldWithNoTimer(RunFrom(Start(conf), events)))
  {
    var first, hold := AddReader(0, 9), Hold([], [ReaderReq(0, 9)]);
    DropsWhileReady(Begun(conf, first, hold), 7);
    FromRequest(conf, first, hold, [StopPublisher(3, 7), Describe(4, "")]);
  }

  /**
   * For every configuration with a publisher on demand: it serves a describe and drops before the path closes it, then
   * another describe arrives; the close timer that is armed at that time fires without answering it.
   */
  lemma HeldAfterClosing(conf: Conf)
    requires conf.Valid() && conf.HasOnDemandPublisher()
    ensures (StartInv(conf);
             var events := [Describe(0, ""), AddPublisher(1, 7), StartPublisher(2, 7, Created)] +
                           [StopPublisher(3, 7), Describe(4, ""), PubCloseTimer];
             Admissible(Start(conf), events) && HeldWithNoTimer(RunFrom(Start(conf), events)))
  {
    var first, hold := Describe(0, ""), Hold([0], []);
    DropsWhileClosing(Begun(conf, first, hold), 7);
    FromRequest(conf, first, hold, [StopPublisher(3, 7), Describe(4, ""), PubCloseTimer]);
  }

  /** A static source on demand has announced itself, and the path waits for readers in order to close again. */
  predicate AnnouncedTo(s: State) {
    && s.conf.HasOnDemandStaticSource() && s.demand.source.state == Closing
    && s.supply.running && s.supply.sourceReady && s.hold == NOBODY && s.crowd.readers == {}
  }

  lemma AnnouncedAfterRequest(conf: Conf) returns (s: State)
    requires conf.Valid() && conf.HasOnDemandStaticSource()
    ensures Inv(s) && AnnouncedTo(s) && s.link.stream.Some?
    ensures (StartInv(conf);
             var first := Next(Start(conf), Describe(0, ""));
             && Allowed(Start(conf), Describe(0, "")) && !Leaves(Describe(0, ""), first)
             && Allowed(first, StaticSetReady(1, Created)) && s == Next(first, StaticSetReady(1, Created)))
  {
    StartInv(conf);
    var first := Next(Start(conf), Describe(0, ""));
    var r := Receive(first, StaticSetReady(1, Created));
    var demand := r.demand.(source := Awakened(r.demand.source));
    var supply := r.supply.(sourceReady := true);
    var u := r.(link := SetReady(r.link, r.conf.record, Created), demand := demand, supply := supply);
    var answers := u.books.answers + AnswersTo(u.hold.describes, GotStream(u.link.stream.value));
    var v := u.(books := u.books.(answers := answers), hold := NOBODY);
    assert ConsumeHeld(u) == AddReaders(v, []) == v;
    s := Next(first, StaticSetReady(1, Created));
  }

  lemma FailsAndCloses(s: State)
    requires Inv(s) && AnnouncedTo(s) && s.link.stream.Some?
    ensures var events := [StaticSetReady(2, StreamFailed), Describe(3, ""), StaticCloseTimer];
      Admissible(s, events) && HeldWithNoTimer(RunFrom(s, events))
  {
    var s1 := Next(s, StaticSetReady(2, StreamFailed));
    AsksAfterFailure(s1);
    OneTurn(s, StaticSetReady(2, StreamFailed), [Describe(3, ""), StaticCloseTimer]);
    assert [StaticSetReady(2, StreamFailed), Describe(3, ""), StaticCloseTimer] ==
      [StaticSetReady(2, StreamFailed)] + [Describe(3, ""), StaticCloseTimer];
  }

  lemma AsksAfterFailure(s: State)
    requires Inv(s) && AnnouncedTo(s) && s.link.stream.None?
    ensures var events := [Describe(3, ""), StaticCloseTimer];
      Admissible(s, events) && HeldWithNoTimer(RunFrom(s, events))
  {
    var s1 := Next(s, Describe(3, ""));
    assert HeldWithNoTimer(Next(s1, StaticCloseTimer));
    OneTurn(s1, StaticCloseTimer, []);
    OneTurn(s, Describe(3, ""), [StaticCloseTimer]);
    assert [Describe(3, ""), StaticCloseTimer] == [Describe(3, "")] + [StaticCloseTimer];
  }

  /**
   * For every configuration with a static source on demand: it serves a describe and announces itself again, no stream
   * can be allocated this time, and another describe arrives; the close timer fires without answering it.
   */
  lemma HeldAfterSecondAnnouncement(conf: Conf)
    requires conf.Valid() && conf.HasOnDemandStaticSource()
    ensures (StartInv(conf);
             var events := [Describe(0, ""), StaticSetReady(1, Created)] +
                           [StaticSetReady(2, StreamFailed), Describe(3, ""), StaticCloseTimer];
             Admissible(Start(conf), events) && HeldWithNoTimer(RunFrom(Start(conf), events)))
  {
    var s := AnnouncedAfterRequest(conf);
    var rest := [StaticSetReady(2, StreamFailed), Describe(3, ""), StaticCloseTimer];
    FailsAndCloses(s);
    var first := Next(Start(conf), Describe(0, ""));
    OneTurn(first, StaticSetReady(1, Created), rest);
    OneTurn(Start(conf), Describe(0, ""), [StaticSetReady(1, Created)] + rest);
    assert [Describe(0, ""), StaticSetReady(1, Created)] + rest ==
      [Describe(0, "")] + ([StaticSetReady(1, Created)] + rest);
  }
}
