/** What every reachable state of a path satisfies. */
module PathSafety {
  import opened Common
  import opened PathConf
  import opened PathSpec

  // The books: every accepted request is answered once or held once

  lemma OneMore(x: nat, ids: seq<nat>, y: nat)
    ensures Times(x, ids + [y]) == Times(x, ids) + One(x, y)
  {
    assert (ids + [y])[..|ids|] == ids;
  }

  lemma OneMoreAnswer(x: ReqId, a: seq<Answer>, y: Answer)
    ensures TimesAnswered(x, a + [y]) == TimesAnswered(x, a) + One(x, y.req)
  {
    assert (a + [y])[..|a|] == a;
  }

  lemma OneMoreHeld(x: ReqId, h: seq<ReaderReq>, y: ReaderReq)
    ensures TimesHeld(x, h + [y]) == TimesHeld(x, h) + One(x, y.req)
  {
    assert (h + [y])[..|h|] == h;
  }

  lemma {:induction false} AnswersToPay(x: ReqId, a: seq<Answer>, ids: seq<ReqId>, reply: Reply)
    ensures TimesAnswered(x, a + AnswersTo(ids, reply)) == TimesAnswered(x, a) + Times(x, ids)
  {
    if ids == [] {
      assert a + AnswersTo(ids, reply) == a;
    } else {
      var front, last := ids[..|ids| - 1], ids[|ids| - 1];
      AnswersToPay(x, a, front, reply);
      assert a + AnswersTo(ids, reply) == (a + AnswersTo(front, reply)) + [Answer(last, reply)];
      OneMoreAnswer(x, a + AnswersTo(front, reply), Answer(last, reply));
    }
  }

  lemma {:induction false} HeldAreReqs(x: ReqId, hold: seq<ReaderReq>)
    ensures TimesHeld(x, hold) == Times(x, ReqsOf(hold))
  {
    if hold == [] {
    } else {
      HeldAreReqs(x, hold[..|hold| - 1]);
      assert ReqsOf(hold)[..|hold| - 1] == ReqsOf(hold[..|hold| - 1]);
    }
  }

  lemma SayPays(b: Books, h: Hold, x: ReqId, req: ReqId, reply: Reply)
    requires Owes(b, h, x, One(x, req))
    ensures Owes(Say(b, req, reply), h, x, 0)
  {
    OneMoreAnswer(x, b.answers, Answer(req, reply));
  }

  lemma RefuseHeldPays(b: Books, h: Hold, x: ReqId, why: Error)
    requires Owes(b, h, x, 0)
    ensures Owes(RefuseHeld(b, h, why), NOBODY, x, 0)
  {
    AnswersToPay(x, b.answers, h.describes, Refused(why));
    AnswersToPay(x, b.answers + AnswersTo(h.describes, Refused(why)), ReqsOf(h.readers), Refused(why));
    HeldAreReqs(x, h.readers);
  }

  lemma {:induction false} AddReadersPay(s: State, x: ReqId, hold: seq<ReaderReq>)
    requires s.link.stream.Some?
    ensures AddReaders(s, hold).books.accepted == s.books.accepted
    ensures TimesAnswered(x, AddReaders(s, hold).books.answers) ==
            TimesAnswered(x, s.books.answers) + TimesHeld(x, hold)
    decreases |hold|
  {
    if hold == [] {
    } else {
      var front, last := hold[..|hold| - 1], hold[|hold| - 1];
      AddReadersPay(s, x, front);
      var a := AddReaders(s, front).books.answers;
      OneMoreAnswer(x, a, Answer(last.req, GotStream(s.link.stream.value)));
      OneMoreAnswer(x, a, Answer(last.req, Refused(TooManyReaders)));
    }
  }

  lemma ConsumeHeldPays(s: State, x: ReqId, due: nat)
    requires s.link.stream.Some? && Owes(s.books, s.hold, x, due)
    ensures Owes(ConsumeHeld(s).books, NOBODY, x, due) && ConsumeHeld(s).hold == NOBODY
  {
    var reply := GotStream(s.link.stream.value);
    AnswersToPay(x, s.books.answers, s.hold.describes, reply);
    AddReadersPay(
      s.(books := s.books.(answers := s.books.answers + AnswersTo(s.hold.describes, reply)), hold := NOBODY),
      x, s.hold.readers);
  }

  /** What receiving an event makes due. */
  function Due(e: Event, x: ReqId): nat {
    if Silent(e) then 0 else One(x, e.req)
  }

  lemma ReceiveOwes(s: State, e: Event, x: ReqId)
    requires Owes(s.books, s.hold, x, 0)
    ensures Owes(Receive(s, e).books, s.hold, x, Due(e, x))
  {
    if !Silent(e) { OneMore(x, s.books.accepted, e.req); }
  }

  lemma StaticSetReadyPays(s: State, req: ReqId, outcome: SetReadyOutcome, x: ReqId)
    requires Owes(s.books, s.hold, x, One(x, req))
    ensures var t := DoStaticSetReady(s, req, outcome); Owes(t.books, t.hold, x, 0)
  {
    var link := SetReady(s.link, s.conf.record, outcome);
    if !outcome.Created? {
      SayPays(s.books, s.hold, x, req, Refused(CannotStart));
    } else {
      var demand :=
        if s.conf.HasOnDemandStaticSource() then s.demand.(source := Awakened(s.demand.source)) else s.demand;
      var s1 := s.(link := link, demand := demand, supply := s.supply.(sourceReady := true));
      ConsumeHeldPays(s1, x, One(x, req));
      SayPays(ConsumeHeld(s1).books, NOBODY, x, req, GotStream(link.stream.value));
    }
  }

  lemma StartPublisherPays(s: State, req: ReqId, publisher: PublisherId, outcome: SetReadyOutcome, x: ReqId)
    requires Owes(s.books, s.hold, x, One(x, req))
    ensures var t := DoStartPublisher(s, req, publisher, outcome); Owes(t.books, t.hold, x, 0)
  {
    var link := SetReady(s.link, s.conf.record, outcome);
    SayPays(s.books, s.hold, x, req, Refused(NotAssignedAnymore));
    SayPays(s.books, s.hold, x, req, Refused(CannotStart));
    if s.supply.source == Publisher(publisher) && outcome.Created? {
      var demand :=
        if s.conf.HasOnDemandPublisher() && s.demand.publisher.state != Initial
        then s.demand.(publisher := Awakened(s.demand.publisher)) else s.demand;
      var s1 := s.(link := link, demand := demand, supply := s.supply.(started := s.supply.started + {publisher}));
      ConsumeHeldPays(s1, x, One(x, req));
      SayPays(ConsumeHeld(s1).books, NOBODY, x, req, GotStream(link.stream.value));
    }
  }

  lemma DemandStreamKeeps(s: State)
    requires s.link.stream.None? && CanDemand(s)
    ensures DemandStream(s).books == s.books && DemandStream(s).hold == s.hold && DemandStream(s).crowd == s.crowd
    ensures DemandStream(s).link == s.link && DemandStream(s).conf == s.conf
  {
  }

  lemma AddReaderPays(s: State, req: ReqId, reader: ReaderId, x: ReqId)
    requires CanDemand(s) && Owes(s.books, s.hold, x, One(x, req))
    ensures var t := DoAddReader(s, req, reader); Owes(t.books, t.hold, x, 0)
  {
    if s.link.stream.Some? {
      SayPays(s.books, s.hold, x, req, GotStream(s.link.stream.value));
      SayPays(s.books, s.hold, x, req, Refused(TooManyReaders));
    } else {
      DemandStreamKeeps(s);
      OneMoreHeld(x, s.hold.readers, ReaderReq(req, reader));
      SayPays(s.books, s.hold, x, req, Refused(NoOnePublishing));
    }
  }

  lemma DescribePays(s: State, req: ReqId, base: string, x: ReqId)
    requires CanDemand(s) && Owes(s.books, s.hold, x, One(x, req))
    ensures var t := DoDescribe(s, req, base); Owes(t.books, t.hold, x, 0)
  {
    if s.supply.source.Redirect? {
      SayPays(s.books, s.hold, x, req, Redirected(s.conf.sourceRedirect));
    } else if s.link.stream.Some? {
      SayPays(s.books, s.hold, x, req, GotStream(s.link.stream.value));
    } else if s.conf.HasOnDemandStaticSource() || s.conf.HasOnDemandPublisher() {
      DemandStreamKeeps(s);
      OneMore(x, s.hold.describes, req);
    } else if s.conf.fallback.Some? {
      SayPays(s.books, s.hold, x, req, Redirected(FallbackURL(s.conf.fallback.value, base)));
    } else {
      SayPays(s.books, s.hold, x, req, Refused(NoOnePublishing));
    }
  }

  lemma PublisherCallsPay(s: State, req: ReqId, publisher: PublisherId, x: ReqId)
    requires s.link.stream.Some? ==> s.link.notReadyHook.Some?
    requires s.conf.source.FromPublisher? ==> s.supply.source.NoSource? || s.supply.source.Publisher?
    requires Owes(s.books, s.hold, x, One(x, req))
    ensures var t := DoAddPublisher(s, req, publisher); Owes(t.books, t.hold, x, 0)
    ensures var t := DoRemovePublisher(s, req, publisher); Owes(t.books, t.hold, x, 0)
    ensures var t := DoStopPublisher(s, req, publisher); Owes(t.books, t.hold, x, 0)
  {
    SayPays(s.books, s.hold, x, req, Refused(NotAPublisherPath));
    SayPays(s.books, s.hold, x, req, Refused(AlreadyPublishing));
    SayPays(s.books, s.hold, x, req, GotPath);
    SayPays(s.books, s.hold, x, req, Done);
  }

  lemma StepPays(s: State, e: Event, x: ReqId)
    requires CanStep(s, e) && Owes(s.books, s.hold, x, 0)
    ensures Owes(Step(s, e).books, Step(s, e).hold, x, 0)
  {
    var r := Receive(s, e);
    ReceiveOwes(s, e, x);
    match e
    case StaticReadyTimer | PubReadyTimer => RefuseHeldPays(r.books, r.hold, x, TimedOut);
    case StaticCloseTimer | PubCloseTimer | ReloadConf(_) =>
    case StaticSetReady(req, outcome) => StaticSetReadyPays(r, req, outcome, x);
    case StartPublisher(req, publisher, outcome) => StartPublisherPays(r, req, publisher, outcome, x);
    case Describe(req, base) => DescribePays(r, req, base, x);
    case AddReader(req, reader) => AddReaderPays(r, req, reader, x);
    case AddPublisher(req, publisher) => PublisherCallsPay(r, req, publisher, x);
    case RemovePublisher(req, publisher) => PublisherCallsPay(r, req, publisher, x);
    case StopPublisher(req, publisher) => PublisherCallsPay(r, req, publisher, x);
    case StaticSetNotReady(req) => SayPays(r.books, r.hold, x, req, Done);
    case RemoveReader(req, _) => SayPays(r.books, r.hold, x, req, Done);
  }

  // The readers

  lemma OneMoreKicked(x: ReaderId, kicked: seq<set<ReaderId>>, y: set<ReaderId>)
    ensures TimesKicked(x, kicked + [y]) == TimesKicked(x, kicked) + if x in y then 1 else 0
  {
    assert (kicked + [y])[..|kicked|] == kicked;
  }

  lemma CrowdStepsAccount(c: Crowd, r: ReaderId, x: ReaderId)
    requires Accounted(c, x)
    ensures r !in c.readers ==> Accounted(Admit(c, r), x)
    ensures Accounted(Leave(c, r), x)
    ensures Accounted(Kick(c), x)
  {
    assert r !in c.readers ==> Accounted(Admit(c, r), x) by { OneMore(x, c.admitted, r); }
    assert Accounted(Leave(c, r), x) by { OneMore(x, c.left, r); }
    assert Accounted(Kick(c), x) by { OneMoreKicked(x, c.kicked, c.readers); }
  }

  lemma {:induction false} AddReadersAccount(s: State, hold: seq<ReaderReq>, x: ReaderId)
    requires s.link.stream.Some? && Accounted(s.crowd, x)
    ensures Accounted(AddReaders(s, hold).crowd, x)
    decreases |hold|
  {
    if hold == [] {
    } else {
      var front := hold[..|hold| - 1];
      AddReadersAccount(s, front, x);
      CrowdStepsAccount(AddReaders(s, front).crowd, hold[|hold| - 1].author, x);
    }
  }

  lemma ConsumeHeldAccounts(s: State, x: ReaderId)
    requires s.link.stream.Some? && Accounted(s.crowd, x)
    ensures Accounted(ConsumeHeld(s).crowd, x)
  {
    var reply := GotStream(s.link.stream.value);
    AddReadersAccount(
      s.(books := s.books.(answers := s.books.answers + AnswersTo(s.hold.describes, reply)), hold := NOBODY),
      s.hold.readers, x);
  }

  lemma SetReadyStepsAccount(s: State, e: Event, x: ReaderId)
    requires (e.StaticSetReady? || e.StartPublisher?) && Accounted(s.crowd, x)
    ensures e.StaticSetReady? ==> Accounted(DoStaticSetReady(s, e.req, e.outcome).crowd, x)
    ensures e.StartPublisher? ==> Accounted(DoStartPublisher(s, e.req, e.publisher, e.outcome).crowd, x)
  {
    forall t: State | t.link.stream.Some? && t.crowd == s.crowd ensures Accounted(ConsumeHeld(t).crowd, x) {
      ConsumeHeldAccounts(t, x);
    }
  }

  lemma RequestsAccount(s: State, e: Event, x: ReaderId)
    requires CanDemand(s) && Accounted(s.crowd, x)
    ensures e.Describe? ==> Accounted(DoDescribe(s, e.req, e.base).crowd, x)
    ensures e.AddReader? ==> Accounted(DoAddReader(s, e.req, e.reader).crowd, x)
    ensures e.RemoveReader? ==> Accounted(DoRemoveReader(s, e.req, e.reader).crowd, x)
  {
    if s.link.stream.None? { DemandStreamKeeps(s); }
    if e.AddReader? || e.RemoveReader? { CrowdStepsAccount(s.crowd, e.reader, x); }
  }

  lemma PublisherStepsAccount(s: State, e: Event, x: ReaderId)
    requires s.link.stream.Some? ==> s.link.notReadyHook.Some?
    requires s.conf.source.FromPublisher? ==> s.supply.source.NoSource? || s.supply.source.Publisher?
    requires Accounted(s.crowd, x)
    ensures e.AddPublisher? ==> Accounted(DoAddPublisher(s, e.req, e.publisher).crowd, x)
    ensures e.RemovePublisher? ==> Accounted(DoRemovePublisher(s, e.req, e.publisher).crowd, x)
    ensures e.StopPublisher? ==> Accounted(DoStopPublisher(s, e.req, e.publisher).crowd, x)
  {
    CrowdStepsAccount(s.crowd, 0, x);
  }

  lemma StepAccounts(s: State, e: Event, x: ReaderId)
    requires CanStep(s, e) && Accounted(s.crowd, x)
    ensures Accounted(Step(s, e).crowd, x)
  {
    var r := Receive(s, e);
    match e
    case StaticReadyTimer | PubReadyTimer | PubCloseTimer | ReloadConf(_) =>
    case StaticCloseTimer | StaticSetNotReady(_) => CrowdStepsAccount(s.crowd, 0, x);
    case StaticSetReady(_, _) | StartPublisher(_, _, _) => SetReadyStepsAccount(r, e, x);
    case Describe(_, _) | AddReader(_, _) | RemoveReader(_, _) => RequestsAccount(r, e, x);
    case _ => PublisherStepsAccount(r, e, x);
  }

  // Hooks and notices

  lemma UptoNext(n: nat)
    ensures Upto(n) + [n] == Upto(n + 1)
  {
  }

  lemma AlternatingNext(n: nat)
    ensures Alternating(n) + [if n % 2 == 0 then PathReady else PathNotReady] == Alternating(n + 1)
  {
  }

  lemma SetReadyKeepsLinkInv(l: Link, record: bool, outcome: SetReadyOutcome)
    requires LinkInv(l) && l.stream.None?
    ensures LinkInv(SetReady(l, record, outcome))
  {
    AlternatingNext(|l.notices|);
  }

  lemma UnlinkKeepsLinkInv(l: Link)
    requires LinkInv(l) && l.stream.Some?
    ensures LinkInv(Unlink(l))
  {
    AlternatingNext(|l.notices|);
    UptoNext(|l.hooks.called|);
  }

  /** Made ready while it has a stream, a path loses a ready hook and sends two notices of the same kind in a row. */
  lemma SecondReadyBreaksLinkInv(l: Link, record: bool)
    requires LinkInv(l) && l.stream.Some?
    ensures !LinkInv(SetReady(l, record, Created))
  {
    var notices := SetReady(l, record, Created).notices;
    assert notices[|l.notices|] == PathReady && Alternating(|notices|)[|l.notices|] == PathNotReady;
  }

  /** An event keeps notices and ready hooks in turn if and only if it is not an announcement that meets a stream. */
  lemma StepKeepsLinkInvExactlyWhen(s: State, e: Event)
    requires CanStep(s, e) && Tidy(s)
    ensures LinkInv(Step(s, e).link) <==> !MeetsStream(s, e)
  {
    if MeetsStream(s, e) {
      if e.outcome.Created? { SecondReadyBreaksLinkInv(s.link, s.conf.record); }
    } else if s.link.stream.Some? {
      UnlinkKeepsLinkInv(s.link);
    } else if e.StaticSetReady? || e.StartPublisher? {
      SetReadyKeepsLinkInv(s.link, s.conf.record, e.outcome);
    }
  }

  lemma PubStopKeepsHooks(d: Demand)
    requires d.undemandHook.Some? && OnceEach(d.hooks, d.undemandHook)
    ensures OnceEach(PubStop(d).hooks, PubStop(d).undemandHook)
  {
    UptoNext(|d.hooks.called|);
  }

  lemma {:induction false} AddReadersKeepHooks(s: State, hold: seq<ReaderReq>)
    requires s.link.stream.Some?
    ensures var d := AddReaders(s, hold).demand; d.hooks == s.demand.hooks && d.undemandHook == s.demand.undemandHook
    decreases |hold|
  {
    if hold != [] { AddReadersKeepHooks(s, hold[..|hold| - 1]); }
  }

  lemma StepKeepsDemandHooks(s: State, e: Event)
    requires CanStep(s, e) && OnceEach(s.demand.hooks, s.demand.undemandHook)
    ensures var d := Step(s, e).demand; OnceEach(d.hooks, d.undemandHook)
  {
    var r := Receive(s, e);
    match e
    case PubReadyTimer | PubCloseTimer => PubStopKeepsHooks(r.demand);
    case StaticSetReady(_, _) | StartPublisher(_, _, _) =>
      forall t: State, hold | t.link.stream.Some?
        ensures var d := AddReaders(t, hold).demand;
          d.hooks == t.demand.hooks && d.undemandHook == t.demand.undemandHook
      {
        AddReadersKeepHooks(t, hold);
      }
    case _ =>
  }

  // Control

  /** A state with a stream, while the readers on hold are being let in. */
  predicate Serving(s: State) {
    && s.conf.Valid()
    && s.link.stream.Some?
    && (s.conf.HasOnDemandStaticSource() ==> s.demand.source == Awake(s.crowd.readers))
    && (!s.conf.HasOnDemandStaticSource() ==> s.demand.source == IDLE)
    && (if s.conf.HasOnDemandPublisher()
        then s.demand.publisher == IDLE || s.demand.publisher == Awake(s.crowd.readers)
        else s.demand.publisher == IDLE)
    && (s.conf.maxReaders > 0 ==> |s.crowd.readers| <= s.conf.maxReaders)
  }

  function Awake(readers: set<ReaderId>): OnDemand {
    if readers == {} then OnDemand(Closing, false, true) else OnDemand(Ready, false, false)
  }

  lemma AddReaderPostServes(s: State, r: ReaderReq)
    requires Serving(s)
    ensures Serving(AddReaderPost(s, r))
    ensures AddReaderPost(s, r).demand.publisher == IDLE <==> s.demand.publisher == IDLE
  {
  }

  lemma {:induction false} AddReadersServe(s: State, hold: seq<ReaderReq>)
    requires Serving(s)
    ensures Serving(AddReaders(s, hold))
    ensures AddReaders(s, hold).demand.publisher == IDLE <==> s.demand.publisher == IDLE
    decreases |hold|
  {
    if hold != [] {
      AddReadersServe(s, hold[..|hold| - 1]);
      AddReaderPostServes(AddReaders(s, hold[..|hold| - 1]), hold[|hold| - 1]);
    }
  }

  lemma ConsumeHeldServes(s: State)
    requires Serving(s)
    ensures Serving(ConsumeHeld(s))
    ensures ConsumeHeld(s).demand.publisher == IDLE <==> s.demand.publisher == IDLE
    ensures var t := ConsumeHeld(s);
      t == s.(crowd := t.crowd, demand := t.demand, books := t.books, hold := NOBODY)
    ensures var d := ConsumeHeld(s).demand; d.hooks == s.demand.hooks && d.undemandHook == s.demand.undemandHook
  {
    var reply := GotStream(s.link.stream.value);
    var s1 := s.(books := s.books.(answers := s.books.answers + AnswersTo(s.hold.describes, reply)), hold := NOBODY);
    AddReadersServe(s1, s.hold.readers);
    AddReadersKeepHooks(s1, s.hold.readers);
  }

  // What holds in every run

  lemma TidyIsBasic(s: State)
    requires Tidy(s)
    ensures Basic(s)
  {
  }

  /** A path with a static source and a stream, while the readers on hold join those that are there already. */
  predicate ServingStatic(s: State) {
    && s.conf.Valid() && s.conf.HasStaticSource() && s.link.stream.Some?
    && (if s.conf.HasOnDemandStaticSource()
        then s.demand.source == OnDemand(Closing, false, true) || s.demand.source == OnDemand(Ready, false, false)
        else s.demand.source == IDLE)
    && (s.conf.maxReaders > 0 ==> |s.crowd.readers| <= s.conf.maxReaders)
  }

  lemma {:induction false} AddReadersServeStatic(s: State, hold: seq<ReaderReq>)
    requires ServingStatic(s)
    ensures var t := AddReaders(s, hold);
      ServingStatic(t) && t.demand == s.demand.(source := t.demand.source)
    decreases |hold|
  {
    if hold != [] {
      AddReadersServeStatic(s, hold[..|hold| - 1]);
    }
  }

  lemma ConsumeHeldServesStatic(s: State)
    requires ServingStatic(s)
    ensures var t := ConsumeHeld(s);
      && ServingStatic(t)
      && t == s.(crowd := t.crowd, demand := s.demand.(source := t.demand.source), books := t.books, hold := NOBODY)
  {
    var reply := GotStream(s.link.stream.value);
    AddReadersServeStatic(
      s.(books := s.books.(answers := s.books.answers + AnswersTo(s.hold.describes, reply)), hold := NOBODY),
      s.hold.readers);
  }

  lemma TimersKeepBasic(s: State, e: Event)
    requires CanStep(s, e)
    requires e.StaticReadyTimer? || e.StaticCloseTimer? || e.PubReadyTimer? || e.PubCloseTimer?
    ensures Basic(Step(s, e))
  {
  }

  /** Whatever the path knows of it, a source that announces itself leaves a path that can go on. */
  lemma StaticSetReadyKeepsBasic(s: State, e: Event)
    requires CanStep(s, e) && e.StaticSetReady?
    ensures Basic(Step(s, e))
  {
    var r := Receive(s, e);
    if e.outcome.Created? {
      var demand :=
        if r.conf.HasOnDemandStaticSource() then r.demand.(source := Awakened(r.demand.source)) else r.demand;
      ConsumeHeldServesStatic(r.(link := SetReady(r.link, r.conf.record, e.outcome), demand := demand,
                                 supply := r.supply.(sourceReady := true)));
    }
  }

  lemma StartPublisherKeepsBasic(s: State, e: Event)
    requires CanStep(s, e) && e.StartPublisher?
    ensures Basic(Step(s, e))
  {
    var r := Receive(s, e);
    if r.supply.source == Publisher(e.publisher) && e.outcome.Created? {
      var demand :=
        if r.conf.HasOnDemandPublisher() && r.demand.publisher.state != Initial
        then r.demand.(publisher := Awakened(r.demand.publisher)) else r.demand;
      ConsumeHeldServes(r.(link := SetReady(r.link, r.conf.record, e.outcome), demand := demand,
                           supply := r.supply.(started := r.supply.started + {e.publisher})));
    }
  }

  lemma RequestsKeepBasic(s: State, e: Event)
    requires Basic(s)
    ensures e.Describe? ==> Basic(DoDescribe(s, e.req, e.base))
    ensures e.RemoveReader? ==> Basic(DoRemoveReader(s, e.req, e.reader))
  {
  }

  lemma AddReaderPostKeepsBasic(s: State, r: ReaderReq)
    requires Basic(s) && s.link.stream.Some?
    ensures Basic(AddReaderPost(s, r))
  {
  }

  lemma AddReaderKeepsBasic(s: State, req: ReqId, reader: ReaderId)
    requires Basic(s)
    ensures Basic(DoAddReader(s, req, reader))
  {
    if s.link.stream.Some? { AddReaderPostKeepsBasic(s, ReaderReq(req, reader)); }
  }

  lemma StaticSetNotReadyKeepsBasic(s: State, req: ReqId)
    requires Basic(s) && s.supply.running && s.supply.sourceReady
    ensures Basic(DoStaticSetNotReady(s, req))
  {
  }

  lemma AddPublisherKeepsBasic(s: State, req: ReqId, publisher: PublisherId)
    requires Basic(s) && publisher !in s.supply.started
    ensures Basic(DoAddPublisher(s, req, publisher))
  {
  }

  lemma PublisherLeavesKeepsBasic(s: State, req: ReqId, publisher: PublisherId)
    requires Basic(s)
    ensures Basic(DoRemovePublisher(s, req, publisher))
    ensures Basic(DoStopPublisher(s, req, publisher))
  {
  }

  lemma StepKeepsBasic(s: State, e: Event)
    requires CanStep(s, e)
    ensures Basic(Step(s, e))
  {
    match e
    case StaticReadyTimer | StaticCloseTimer | PubReadyTimer | PubCloseTimer => TimersKeepBasic(s, e);
    case ReloadConf(_) =>
    case StaticSetReady(_, _) => StaticSetReadyKeepsBasic(s, e);
    case StartPublisher(_, _, _) => StartPublisherKeepsBasic(s, e);
    case Describe(_, _) | RemoveReader(_, _) => RequestsKeepBasic(Receive(s, e), e);
    case AddReader(req, reader) => AddReaderKeepsBasic(Receive(s, e), req, reader);
    case StaticSetNotReady(req) => StaticSetNotReadyKeepsBasic(Receive(s, e), req);
    case AddPublisher(req, publisher) => AddPublisherKeepsBasic(Receive(s, e), req, publisher);
    case RemovePublisher(req, publisher) => PublisherLeavesKeepsBasic(Receive(s, e), req, publisher);
    case StopPublisher(req, publisher) => PublisherLeavesKeepsBasic(Receive(s, e), req, publisher);
  }

  /** Every event the loop may receive keeps the invariant of every run. */
  lemma StepKeepsInv(s: State, e: Event)
    requires Inv(s) && Allowed(s, e)
    ensures Inv(Step(s, e))
  {
    StepKeepsBasic(s, e);
    StepKeepsDemandHooks(s, e);
    forall x: ReqId ensures Owes(Step(s, e).books, Step(s, e).hold, x, 0) { StepPays(s, e, x); }
    forall x: ReaderId ensures Accounted(Step(s, e).crowd, x) { StepAccounts(s, e, x); }
  }

  // What holds as long as no announcement meets a stream

  predicate InControl(s: State, e: Event) {
    CanStep(s, e) && Control(s)
  }

  lemma TimersKeepControl(s: State, e: Event)
    requires InControl(s, e)
    requires e.StaticReadyTimer? || e.StaticCloseTimer? || e.PubReadyTimer? || e.PubCloseTimer?
    ensures Control(Step(s, e))
  {
  }

  lemma NobodyIsOnHold(s: State)
    requires s.link.stream.Some? && s.hold.Empty()
    ensures ConsumeHeld(s) == s
  {
    assert s.books.answers + AnswersTo([], GotStream(s.link.stream.value)) == s.books.answers;
  }

  /** An announcement that meets a stream leaves nothing out of place exactly in these cases. */
  lemma SecondAnnouncementKeepsControlExactlyWhen(s: State, req: ReqId, outcome: SetReadyOutcome)
    requires Control(s) && s.supply.running && s.supply.sourceReady
    ensures Control(DoStaticSetReady(s, req, outcome)) <==>
            || outcome.TranscoderFailed?
            || (outcome.Created? && (s.conf.HasOnDemandStaticSource() ==> s.crowd.readers == {}))
  {
    if outcome.Created? {
      var demand :=
        if s.conf.HasOnDemandStaticSource() then s.demand.(source := Awakened(s.demand.source)) else s.demand;
      var link := SetReady(s.link, s.conf.record, outcome);
      NobodyIsOnHold(s.(link := link, demand := demand, supply := s.supply.(sourceReady := true)));
    }
  }

  lemma FirstAnnouncementKeepsControl(s: State, e: Event)
    requires InControl(s, e) && e.StaticSetReady? && !s.supply.sourceReady
    ensures Control(Step(s, e))
  {
    var r := Receive(s, e);
    if e.outcome.Created? {
      var demand :=
        if r.conf.HasOnDemandStaticSource() then r.demand.(source := Awakened(r.demand.source)) else r.demand;
      ConsumeHeldServes(r.(link := SetReady(r.link, r.conf.record, e.outcome), demand := demand,
                           supply := r.supply.(sourceReady := true)));
    }
  }

  /**
   * The announcement meets a stream, and then either ends it without the knowledge of its readers, or sends the machine
   * of a source on demand to closing although there are readers.
   */
  predicate Upsets(s: State, e: Event) {
    MeetsStream(s, e) && (e.outcome.Created? ==> s.conf.HasOnDemandStaticSource() && s.crowd.readers != {})
  }

  lemma StaticSetReadyKeepsControlExactlyWhen(s: State, e: Event)
    requires InControl(s, e) && e.StaticSetReady?
    ensures Control(Step(s, e)) <==> !Upsets(s, e)
  {
    if s.supply.sourceReady {
      SecondAnnouncementKeepsControlExactlyWhen(Receive(s, e), e.req, e.outcome);
    } else {
      FirstAnnouncementKeepsControl(s, e);
    }
  }

  lemma StartPublisherKeepsControl(s: State, e: Event)
    requires InControl(s, e) && e.StartPublisher?
    ensures Control(Step(s, e))
  {
    var r := Receive(s, e);
    if r.supply.source == Publisher(e.publisher) && e.outcome.Created? {
      var demand :=
        if r.conf.HasOnDemandPublisher() && r.demand.publisher.state != Initial
        then r.demand.(publisher := Awakened(r.demand.publisher)) else r.demand;
      ConsumeHeldServes(r.(link := SetReady(r.link, r.conf.record, e.outcome), demand := demand,
                           supply := r.supply.(started := r.supply.started + {e.publisher})));
    }
  }

  lemma DescribeKeepsControl(s: State, req: ReqId, base: string)
    requires Control(s) && CanDemand(s)
    ensures Control(DoDescribe(s, req, base))
  {
  }

  lemma AddReaderKeepsControl(s: State, req: ReqId, reader: ReaderId)
    requires Control(s) && CanDemand(s)
    ensures Control(DoAddReader(s, req, reader))
  {
  }

  lemma RemoveReaderKeepsControl(s: State, req: ReqId, reader: ReaderId)
    requires Control(s)
    ensures Control(DoRemoveReader(s, req, reader))
  {
  }

  lemma StaticSetNotReadyKeepsControl(s: State, req: ReqId)
    requires Control(s) && Basic(s) && s.supply.running && s.supply.sourceReady
    ensures Control(DoStaticSetNotReady(s, req))
  {
  }

  lemma AddPublisherKeepsControl(s: State, req: ReqId, publisher: PublisherId)
    requires Control(s) && Basic(s) && publisher !in s.supply.started
    ensures Control(DoAddPublisher(s, req, publisher))
  {
  }

  lemma PublisherLeavesKeepsControl(s: State, req: ReqId, publisher: PublisherId)
    requires Control(s) && Basic(s)
    ensures Control(DoRemovePublisher(s, req, publisher))
    ensures Control(DoStopPublisher(s, req, publisher))
  {
  }

  /** An event leaves stream, source, machines, timers and readers in agreement unless it is such an announcement. */
  lemma StepKeepsControlExactlyWhen(s: State, e: Event)
    requires InControl(s, e)
    ensures Control(Step(s, e)) <==> !Upsets(s, e)
  {
    match e
    case StaticReadyTimer | StaticCloseTimer | PubReadyTimer | PubCloseTimer => TimersKeepControl(s, e);
    case ReloadConf(_) =>
    case StaticSetReady(_, _) => StaticSetReadyKeepsControlExactlyWhen(s, e);
    case StartPublisher(_, _, _) => StartPublisherKeepsControl(s, e);
    case Describe(req, base) => DescribeKeepsControl(Receive(s, e), req, base);
    case AddReader(req, reader) => AddReaderKeepsControl(Receive(s, e), req, reader);
    case RemoveReader(req, reader) => RemoveReaderKeepsControl(Receive(s, e), req, reader);
    case StaticSetNotReady(req) => StaticSetNotReadyKeepsControl(Receive(s, e), req);
    case AddPublisher(req, publisher) => AddPublisherKeepsControl(Receive(s, e), req, publisher);
    case RemovePublisher(req, publisher) => PublisherLeavesKeepsControl(Receive(s, e), req, publisher);
    case StopPublisher(req, publisher) => PublisherLeavesKeepsControl(Receive(s, e), req, publisher);
  }

  /**
   * An event keeps everything in agreement if and only if it is not an announcement that meets a stream. Such an
   * announcement costs a ready hook, and lets notices to the manager stop alternating or a stream end unnoticed.
   */
  lemma StepKeepsTidyExactlyWhen(s: State, e: Event)
    requires Tidy(s) && Allowed(s, e)
    ensures Basic(s)
    ensures Tidy(Step(s, e)) <==> !MeetsStream(s, e)
  {
    TidyIsBasic(s);
    StepKeepsControlExactlyWhen(s, e);
    StepKeepsLinkInvExactlyWhen(s, e);
  }
}
