/** Whole runs of a path: from its creation, over any events, to its termination. */
module PathRuns {
  import opened Common
  import opened PathConf
  import opened PathSpec
  import opened PathSafety

  lemma StartInv(conf: Conf)
    requires conf.Valid()
    ensures Inv(Start(conf)) && Tidy(Start(conf))
  {
  }

  /** One turn of the loop. */
  function Next(s: State, e: Event): (t: State)
    requires Inv(s) && Allowed(s, e)
    ensures Inv(t)
  {
    StepKeepsInv(s, e);
    Step(s, e)
  }

  /** The loop returns "not in use" after this turn. */
  predicate Leaves(e: Event, after: State) {
    ClosesAfter(e) && ShouldClose(after)
  }

  /** The outside keeps its promises, and nothing is received after the loop has returned. */
  ghost predicate Admissible(s: State, events: seq<Event>)
    requires Inv(s)
    decreases |events|
  {
    events != [] ==>
      && Allowed(s, events[0])
      && (Leaves(events[0], Next(s, events[0])) ==> |events| == 1)
      && Admissible(Next(s, events[0]), events[1..])
  }

  /** The state after the events; its result type says that every state on the way satisfies the invariant. */
  ghost function RunFrom(s: State, events: seq<Event>): (t: State)
    requires Inv(s) && Admissible(s, events)
    ensures Inv(t)
    decreases |events|
  {
    if events == [] then s else RunFrom(Next(s, events[0]), events[1..])
  }

  function Requests(events: seq<Event>): seq<ReqId> {
    if events == [] then []
    else (if Silent(events[0]) then [] else [events[0].req]) + Requests(events[1..])
  }

  lemma {:induction false} AddReadersAccept(s: State, hold: seq<ReaderReq>)
    requires s.link.stream.Some?
    ensures AddReaders(s, hold).books.accepted == s.books.accepted
    decreases |hold|
  {
    if hold != [] { AddReadersAccept(s, hold[..|hold| - 1]); }
  }

  lemma StepAccepts(s: State, e: Event)
    requires CanStep(s, e)
    ensures Step(s, e).books.accepted == s.books.accepted + if Silent(e) then [] else [e.req]
  {
    match e
    case StaticSetReady(_, _) | StartPublisher(_, _, _) =>
      forall t: State, hold | t.link.stream.Some? ensures AddReaders(t, hold).books.accepted == t.books.accepted {
        AddReadersAccept(t, hold);
      }
    case _ =>
  }

  lemma Regroup(a: seq<ReqId>, b: seq<ReqId>, c: seq<ReqId>)
    ensures (a + b) + c == a + (b + c)
  {
  }

  lemma {:induction false} RunAccepts(s: State, events: seq<Event>)
    requires Inv(s) && Admissible(s, events)
    ensures RunFrom(s, events).books.accepted == s.books.accepted + Requests(events)
    decreases |events|
  {
    if events == [] {
    } else {
      var e, t := events[0], Next(s, events[0]);
      StepAccepts(s, e);
      RunAccepts(t, events[1..]);
      Regroup(s.books.accepted, if Silent(e) then [] else [e.req], Requests(events[1..]));
    }
  }

  /** No announcement meets a stream. */
  ghost predicate InOrder(s: State, events: seq<Event>)
    requires Inv(s) && Admissible(s, events)
    decreases |events|
  {
    events != [] ==> !MeetsStream(s, events[0]) && InOrder(Next(s, events[0]), events[1..])
  }

  /** As long as that is so, everything stays in agreement. */
  lemma {:induction false} RunKeepsTidy(s: State, events: seq<Event>)
    requires Inv(s) && Tidy(s) && Admissible(s, events) && InOrder(s, events)
    ensures Tidy(RunFrom(s, events))
    decreases |events|
  {
    if events != [] {
      StepKeepsTidyExactlyWhen(s, events[0]);
      RunKeepsTidy(Next(s, events[0]), events[1..]);
    }
  }

  /** What `run` always leaves behind in a state it terminates. */
  ghost predicate Settled(s: State, f: State) {
    && (forall x: ReqId :: Times(x, s.books.accepted) == TimesAnswered(x, f.books.answers))
    && AllAccounted(f.crowd)
    && f.demand.hooks.called == Upto(f.demand.hooks.issued)
    && f.link.stream.None? && !f.supply.running
    && !f.demand.source.readyTimer && !f.demand.source.closeTimer
    && !f.demand.publisher.readyTimer && !f.demand.publisher.closeTimer
    && (s.supply.source.Publisher? ==> f.supply.closed == s.supply.closed + [s.supply.source.id])
  }

  lemma RefusedAll(s: State, x: ReqId)
    requires Owes(s.books, s.hold, x, 0)
    ensures Times(x, s.books.accepted) == TimesAnswered(x, RefuseHeld(s.books, s.hold, Terminated).answers)
  {
    RefuseHeldPays(s.books, s.hold, x, Terminated);
  }

  lemma TerminateAccounts(s: State, x: ReaderId)
    requires Basic(s) && Accounted(s.crowd, x)
    ensures Accounted(Terminate(s).crowd, x)
  {
    CrowdStepsAccount(s.crowd, 0, x);
  }

  lemma TerminateSettles(s: State)
    requires Inv(s)
    ensures Settled(s, Terminate(s))
  {
    var f := Terminate(s);
    forall x: ReqId ensures Times(x, s.books.accepted) == TimesAnswered(x, f.books.answers) {
      assert Owes(s.books, s.hold, x, 0);
      RefusedAll(s, x);
    }
    forall x: ReaderId ensures Accounted(f.crowd, x) {
      assert Accounted(s.crowd, x);
      TerminateAccounts(s, x);
    }
    if s.demand.undemandHook.Some? { UptoNext(|s.demand.hooks.called|); }
  }

  /**
   * Over any run: a path that is created with a valid configuration, receives any events and is terminated at any
   * moment answers every request it received exactly once, calls every undemand hook exactly once in order, and leaves
   * no stream, no armed timer and no running source behind.
   */
  lemma RunSettles(conf: Conf, events: seq<Event>)
    requires conf.Valid() && (StartInv(conf); Admissible(Start(conf), events))
    ensures (StartInv(conf); Settled(RunFrom(Start(conf), events), Terminate(RunFrom(Start(conf), events))))
    ensures (StartInv(conf);
             forall x: ReqId :: TimesAnswered(x, Terminate(RunFrom(Start(conf), events)).books.answers) ==
                                Times(x, Requests(events)))
  {
    StartInv(conf);
    var s := RunFrom(Start(conf), events);
    TerminateSettles(s);
    RunAccepts(Start(conf), events);
    assert s.books.accepted == Requests(events);
  }

  // Only the current stream is handed out

  /** The answers from position `from` on name no other stream than the one the path has now. */
  predicate TellsCurrent(s: State, from: nat) {
    forall i :: from <= i < |s.books.answers| && s.books.answers[i].reply.GotStream? ==>
      s.link.stream == Some(s.books.answers[i].reply.stream)
  }

  lemma {:induction false} AddReadersTell(s: State, hold: seq<ReaderReq>, from: nat)
    requires s.link.stream.Some? && TellsCurrent(s, from)
    ensures TellsCurrent(AddReaders(s, hold), from)
    decreases |hold|
  {
    if hold != [] { AddReadersTell(s, hold[..|hold| - 1], from); }
  }

  lemma ConsumeHeldTells(s: State, from: nat)
    requires s.link.stream.Some? && from <= |s.books.answers| && TellsCurrent(s, from)
    ensures TellsCurrent(ConsumeHeld(s), from)
  {
    var a := AnswersTo(s.hold.describes, GotStream(s.link.stream.value));
    AddReadersTell(s.(books := s.books.(answers := s.books.answers + a), hold := NOBODY), s.hold.readers, from);
  }

  lemma ReadyStepsTell(s: State, e: Event)
    requires e.StaticSetReady? || e.StartPublisher?
    ensures e.StaticSetReady? ==> TellsCurrent(DoStaticSetReady(s, e.req, e.outcome), |s.books.answers|)
    ensures e.StartPublisher? ==> TellsCurrent(DoStartPublisher(s, e.req, e.publisher, e.outcome), |s.books.answers|)
  {
    forall t: State | t.link.stream.Some? && t.books == s.books
      ensures TellsCurrent(ConsumeHeld(t), |s.books.answers|)
    {
      ConsumeHeldTells(t, |s.books.answers|);
    }
  }

  /** No step hands out a stream that is not the stream of the path when the step is over. */
  lemma StepTellsCurrent(s: State, e: Event)
    requires CanStep(s, e)
    ensures TellsCurrent(Step(s, e), |s.books.answers|)
  {
    match e
    case StaticSetReady(_, _) | StartPublisher(_, _, _) => ReadyStepsTell(Receive(s, e), e);
    case _ =>
  }

  // An unused path of a regular expression does not linger

  /** Once such a path is in use, every event that ends its use is one after which the loop asks `shouldClose`. */
  lemma EndOfUseIsNoticed(s: State, e: Event)
    requires CanStep(s, e)
    requires !ShouldClose(s) && ShouldClose(Step(s, e))
    ensures ClosesAfter(e)
  {
  }

  /** A path that closes because it is not in use refuses nobody, removes no reader, and ends no stream or source. */
  lemma ClosingHurtsNobody(s: State)
    requires Inv(s) && ShouldClose(s)
    ensures var f := Terminate(s);
      && f.books == s.books && f.crowd == s.crowd && f.supply == s.supply && f.link == s.link
      && s.link.stream.None? && !s.supply.running
  {
    assert s.books.answers + [] + [] == s.books.answers;
  }

  // A publisher that has been overridden

  /** The event is a call made by a publisher that has already been given the path. */
  predicate By(p: PublisherId, e: Event) {
    (e.StartPublisher? || e.StopPublisher? || e.RemovePublisher?) && e.publisher == p
  }

  /** The same path, apart from the replies and from whether `p` believes it is publishing. */
  ghost predicate Alike(p: PublisherId, s: State, t: State) {
    && t == s.(books := t.books, supply := s.supply.(started := t.supply.started))
    && forall q: PublisherId :: q != p ==> (q in t.supply.started <==> q in s.supply.started)
  }

  lemma StaleCallChangesNothing(p: PublisherId, s: State, e: Event)
    requires CanStep(s, e) && By(p, e) && s.supply.source != Publisher(p)
    ensures Alike(p, s, Step(s, e))
  {
  }

  lemma {:induction false} AddReadersAlike(p: PublisherId, s: State, t: State, hold: seq<ReaderReq>)
    requires Alike(p, s, t) && s.link.stream.Some?
    ensures Alike(p, AddReaders(s, hold), AddReaders(t, hold))
    decreases |hold|
  {
    if hold != [] { AddReadersAlike(p, s, t, hold[..|hold| - 1]); }
  }

  lemma ConsumeHeldAlike(p: PublisherId, s: State, t: State)
    requires Alike(p, s, t) && s.link.stream.Some?
    ensures Alike(p, ConsumeHeld(s), ConsumeHeld(t))
  {
    var a := AnswersTo(s.hold.describes, GotStream(s.link.stream.value));
    AddReadersAlike(p, s.(books := s.books.(answers := s.books.answers + a), hold := NOBODY),
                    t.(books := t.books.(answers := t.books.answers + a), hold := NOBODY), s.hold.readers);
  }

  lemma StaticSetReadyAlike(p: PublisherId, s: State, t: State, req: ReqId, outcome: SetReadyOutcome)
    requires Alike(p, s, t)
    ensures Alike(p, DoStaticSetReady(s, req, outcome), DoStaticSetReady(t, req, outcome))
  {
    if outcome.Created? {
      var link := SetReady(s.link, s.conf.record, outcome);
      var demand :=
        if s.conf.HasOnDemandStaticSource() then s.demand.(source := Awakened(s.demand.source)) else s.demand;
      ConsumeHeldAlike(p, s.(link := link, demand := demand, supply := s.supply.(sourceReady := true)),
                       t.(link := link, demand := demand, supply := t.supply.(sourceReady := true)));
    }
  }

  lemma StartPublisherAlike(p: PublisherId, s: State, t: State, req: ReqId, q: PublisherId, outcome: SetReadyOutcome)
    requires Alike(p, s, t)
    ensures Alike(p, DoStartPublisher(s, req, q, outcome), DoStartPublisher(t, req, q, outcome))
  {
    if outcome.Created? {
      var link := SetReady(s.link, s.conf.record, outcome);
      var demand :=
        if s.conf.HasOnDemandPublisher() && s.demand.publisher.state != Initial
        then s.demand.(publisher := Awakened(s.demand.publisher)) else s.demand;
      ConsumeHeldAlike(p, s.(link := link, demand := demand, supply := s.supply.(started := s.supply.started + {q})),
                       t.(link := link, demand := demand, supply := t.supply.(started := t.supply.started + {q})));
    }
  }

  lemma AlikeCanStep(p: PublisherId, s: State, t: State, e: Event)
    requires Alike(p, s, t) && CanStep(s, e) && Basic(t)
    requires !By(p, e) && !(e.AddPublisher? && e.publisher == p)
    ensures CanStep(t, e)
  {
  }

  lemma ReaderStepsAlike(p: PublisherId, s: State, t: State, e: Event)
    requires Alike(p, s, t) && CanDemand(s)
    ensures e.Describe? ==> Alike(p, DoDescribe(s, e.req, e.base), DoDescribe(t, e.req, e.base))
    ensures e.AddReader? ==> Alike(p, DoAddReader(s, e.req, e.reader), DoAddReader(t, e.req, e.reader))
    ensures e.RemoveReader? ==> Alike(p, DoRemoveReader(s, e.req, e.reader), DoRemoveReader(t, e.req, e.reader))
  {
  }

  lemma PublisherStepsAlike(p: PublisherId, s: State, t: State, req: ReqId, q: PublisherId)
    requires Alike(p, s, t) && Basic(s)
    ensures Alike(p, DoAddPublisher(s, req, q), DoAddPublisher(t, req, q))
    ensures Alike(p, DoRemovePublisher(s, req, q), DoRemovePublisher(t, req, q))
    ensures Alike(p, DoStopPublisher(s, req, q), DoStopPublisher(t, req, q))
  {
  }

  lemma StepAlike(p: PublisherId, s: State, t: State, e: Event)
    requires Alike(p, s, t) && CanStep(s, e) && CanStep(t, e)
    ensures Alike(p, Step(s, e), Step(t, e))
  {
    var r, u := Receive(s, e), Receive(t, e);
    match e
    case StaticSetReady(req, outcome) => StaticSetReadyAlike(p, r, u, req, outcome);
    case StartPublisher(req, q, outcome) => StartPublisherAlike(p, r, u, req, q, outcome);
    case Describe(_, _) | AddReader(_, _) | RemoveReader(_, _) => ReaderStepsAlike(p, r, u, e);
    case AddPublisher(req, q) => PublisherStepsAlike(p, r, u, req, q);
    case RemovePublisher(req, q) => PublisherStepsAlike(p, r, u, req, q);
    case StopPublisher(req, q) => PublisherStepsAlike(p, r, u, req, q);
    case _ =>
  }

  lemma SourceNeedsAdd(p: PublisherId, s: State, e: Event)
    requires CanStep(s, e) && s.supply.source != Publisher(p) && !(e.AddPublisher? && e.publisher == p)
    ensures Step(s, e).supply.source != Publisher(p)
  {
  }

  /** The events of a run, without the calls of a publisher that has been overridden. */
  function Erase(p: PublisherId, events: seq<Event>): (r: seq<Event>)
    ensures |r| <= |events|
  {
    if events == [] then []
    else (if By(p, events[0]) then [] else [events[0]]) + Erase(p, events[1..])
  }

  predicate NeverAdds(p: PublisherId, events: seq<Event>) {
    forall i :: 0 <= i < |events| ==> !(events[i].AddPublisher? && events[i].publisher == p)
  }

  /**
   * From a state in which `p` is not the publisher of the path, as long as it is not added again, a run with all the
   * calls `p` still makes and the run without them go through the same streams, readers, machines and hooks.
   */
  lemma {:induction false} StaleCallsDoNotMatter(p: PublisherId, s: State, t: State, events: seq<Event>)
    requires Inv(s) && Inv(t) && Alike(p, s, t)
    requires s.supply.source != Publisher(p) && !ShouldClose(s) && NeverAdds(p, events)
    requires Admissible(s, events)
    ensures Admissible(t, Erase(p, events))
    ensures Alike(p, RunFrom(s, events), RunFrom(t, Erase(p, events)))
    decreases |events|
  {
    if events == [] {
    } else {
      var e, rest := events[0], events[1..];
      var s1 := Next(s, e);
      SourceNeedsAdd(p, s, e);
      if By(p, e) {
        StaleCallChangesNothing(p, s, e);
        StaleCallsDoNotMatter(p, s1, t, rest);
        assert [] + Erase(p, rest) == Erase(p, rest);
      } else {
        AlikeCanStep(p, s, t, e);
        StepAlike(p, s, t, e);
        var t1 := Next(t, e);
        var erased := [e] + Erase(p, rest);
        assert erased[0] == e && erased[1..] == Erase(p, rest);
        if rest != [] {
          if ShouldClose(s1) { EndOfUseIsNoticed(s, e); }
          StaleCallsDoNotMatter(p, s1, t1, rest);
        }
      }
    }
  }
}
