/**
 * The path object of core/path.go: its fields, the methods its loop calls, and the loop.
 * The fields are grouped into records by what they describe; each record also holds the log of what was sent on its
 * behalf (replies, notices to the path manager, hook calls, closed readers and publishers).
 */
module PathActor {
  import opened Common
  import opened PathConf
  import opened PathSpec
  import opened PathRuns
  import PathLinks

  class Path {
    var conf: Conf
    var supply: Supply
    var link: Link
    var crowd: Crowd
    var demand: Demand
    var hold: Hold
    var books: Books

    ghost function State(): PathSpec.State
      reads this
    {
      PathSpec.State.State(conf, supply, link, crowd, demand, hold, books)
    }

    /** `initialize`, and the part of `run` before the loop. */
    constructor (conf: Conf)
      ensures State() == PathSpec.Start(conf)
    {
      this.conf := conf;
      supply := Supply(NoSource, false, false, {}, []);
      link := Link(None, false, None, Hooks(0, []), []);
      crowd := Crowd({}, [], [], []);
      demand := Demand(IDLE, IDLE, None, Hooks(0, []));
      hold := NOBODY;
      books := Books([], []);
      new;
      if conf.source.FromRedirect? {
        supply := supply.(source := Redirect);
      } else if conf.HasStaticSource() {
        supply := supply.(source := StaticSource);
        if !conf.sourceOnDemand {
          StartHandler();
        }
      }
    }

    // Replies

    method Send(req: ReqId, reply: Reply)
      modifies this`books
      ensures books == Say(old(books), req, reply)
    {
      books := books.(answers := books.answers + [Answer(req, reply)]);
    }

    method SendToAll(reqs: seq<ReqId>, reply: Reply)
      modifies this`books
      ensures books == old(books).(answers := old(books).answers + AnswersTo(reqs, reply))
    {
      for i := 0 to |reqs|
        invariant books == old(books).(answers := old(books).answers + AnswersTo(reqs[..i], reply))
      {
        Send(reqs[i], reply);
        assert AnswersTo(reqs[..i + 1], reply) == AnswersTo(reqs[..i], reply) + [Answer(reqs[i], reply)];
      }
      assert reqs[..|reqs|] == reqs;
    }

    method RefuseOnHold(why: Error)
      modifies this`books
      ensures books == RefuseHeld(old(books), hold, why)
    {
      SendToAll(hold.describes, Refused(why));
      SendToAll(ReqsOf(hold.readers), Refused(why));
    }

    // The static source handler: both methods panic in the wrong state

    method StartHandler()
      requires !supply.running
      modifies this`supply
      ensures supply == HandlerStart(old(supply))
    {
      supply := supply.(running := true);
    }

    method StopHandler()
      requires supply.running
      modifies this`supply
      ensures supply == HandlerStop(old(supply))
    {
      supply := supply.(running := false);
      // the source that ran is gone when the handler has been waited for
      supply := supply.(sourceReady := false);
    }

    // On-demand machines

    method OnDemandStaticSourceStart()
      requires !supply.running
      modifies this`supply, this`demand
      ensures State() == StaticStart(old(State()))
    {
      StartHandler();
      demand := demand.(source := demand.source.(readyTimer := true));
      demand := demand.(source := demand.source.(state := WaitingReady));
    }

    method OnDemandStaticSourceScheduleClose()
      modifies this`demand
      ensures demand == old(demand).(source := CloseScheduled(old(demand).source))
    {
      demand := demand.(source := demand.source.(closeTimer := true));
      demand := demand.(source := demand.source.(state := Closing));
    }

    method OnDemandStaticSourceStop()
      requires supply.running
      modifies this`supply, this`demand
      ensures State() == StaticStop(old(State()))
    {
      if demand.source.state == Closing {
        demand := demand.(source := demand.source.(closeTimer := false));
      }
      demand := demand.(source := demand.source.(state := Initial));
      StopHandler();
    }

    method OnDemandPublisherStart()
      modifies this`demand
      ensures demand == PubStart(old(demand))
    {
      demand := demand.(undemandHook := Some(demand.hooks.issued));
      demand := demand.(hooks := demand.hooks.(issued := demand.hooks.issued + 1));
      demand := demand.(publisher := demand.publisher.(readyTimer := true));
      demand := demand.(publisher := demand.publisher.(state := WaitingReady));
    }

    method OnDemandPublisherScheduleClose()
      modifies this`demand
      ensures demand == old(demand).(publisher := CloseScheduled(old(demand).publisher))
    {
      demand := demand.(publisher := demand.publisher.(closeTimer := true));
      demand := demand.(publisher := demand.publisher.(state := Closing));
    }

    method OnDemandPublisherStop()
      requires demand.undemandHook.Some?
      modifies this`demand
      ensures demand == PubStop(old(demand))
    {
      if demand.publisher.state == Closing {
        demand := demand.(publisher := demand.publisher.(closeTimer := false));
      }
      demand := demand.(hooks := demand.hooks.(called := demand.hooks.called + [demand.undemandHook.value]));
      demand := demand.(undemandHook := None);
      demand := demand.(publisher := demand.publisher.(state := Initial));
    }

    // The stream

    method MakeReady(outcome: SetReadyOutcome) returns (ok: bool)
      modifies this`link
      ensures ok == outcome.Created?
      ensures link == SetReady(old(link), conf.record, outcome)
    {
      if outcome.TranscoderFailed? { return false; }
      if outcome.StreamFailed? {
        link := link.(stream := None);
        return false;
      }
      link := link.(stream := Some(link.hooks.issued));
      if conf.record {
        link := link.(recording := true);
      }
      link := link.(notReadyHook := Some(link.hooks.issued), hooks := link.hooks.(issued := link.hooks.issued + 1));
      link := link.(notices := link.notices + [PathReady]);
      return true;
    }

    method CloseReaders()
      modifies this`crowd
      ensures crowd == Kick(old(crowd))
    {
      var closed := {};
      while crowd.readers != {}
        invariant crowd.readers !! closed && crowd.readers + closed == old(crowd.readers)
        invariant crowd == old(crowd).(readers := crowd.readers)
      {
        var r :| r in crowd.readers;
        crowd := crowd.(readers := crowd.readers - {r});
        closed := closed + {r};
      }
      crowd := crowd.(kicked := crowd.kicked + [closed]);
    }

    method MakeNotReady()
      requires link.notReadyHook.Some?
      modifies this`link, this`crowd
      ensures State() == PathSpec.SetNotReady(old(State()))
    {
      link := link.(notices := link.notices + [PathNotReady]);
      CloseReaders();
      link := link.(hooks := link.hooks.(called := link.hooks.called + [link.notReadyHook.value]));
      if link.recording {
        link := link.(recording := false);
      }
      if link.stream.Some? {
        link := link.(stream := None);
      }
    }

    method AddReaderPost(req: ReaderReq)
      requires link.stream.Some?
      modifies this`crowd, this`demand, this`books
      ensures State() == PathSpec.AddReaderPost(old(State()), req)
    {
      if req.author in crowd.readers {
        Send(req.req, GotStream(link.stream.value));
        return;
      }
      if conf.maxReaders != 0 && |crowd.readers| >= conf.maxReaders {
        Send(req.req, Refused(TooManyReaders));
        return;
      }
      crowd := crowd.(readers := crowd.readers + {req.author}, admitted := crowd.admitted + [req.author]);
      if conf.HasOnDemandStaticSource() {
        if demand.source.state == Closing {
          demand := demand.(source := demand.source.(state := Ready));
          demand := demand.(source := demand.source.(closeTimer := false));
        }
      } else if conf.HasOnDemandPublisher() {
        if demand.publisher.state == Closing {
          demand := demand.(publisher := demand.publisher.(state := Ready));
          demand := demand.(publisher := demand.publisher.(closeTimer := false));
        }
      }
      Send(req.req, GotStream(link.stream.value));
    }

    method ConsumeOnHoldRequests()
      requires link.stream.Some?
      modifies this`crowd, this`demand, this`books, this`hold
      ensures State() == ConsumeHeld(old(State()))
    {
      SendToAll(hold.describes, GotStream(link.stream.value));
      hold := hold.(describes := []);
      var held := hold.readers;
      hold := hold.(readers := []);
      ghost var s := State();
      for i := 0 to |held|
        invariant State() == AddReaders(s, held[..i])
      {
        assert held[..i + 1][..i] == held[..i];
        AddReaderPost(held[i]);
      }
      assert held[..|held|] == held;
    }

    method ExecuteRemovePublisher()
      requires link.stream.Some? ==> link.notReadyHook.Some?
      modifies this`link, this`crowd, this`supply
      ensures State() == DropPublisher(old(State()))
    {
      if link.stream.Some? {
        MakeNotReady();
      }
      supply := supply.(source := NoSource);
    }

    // Timers

    method DoOnDemandStaticSourceReadyTimer()
      requires supply.running
      modifies this
      ensures State() == DoStaticReadyTimer(old(State()))
    {
      RefuseOnHold(TimedOut);
      hold := NOBODY;
      OnDemandStaticSourceStop();
    }

    method DoOnDemandStaticSourceCloseTimer()
      requires supply.running && link.notReadyHook.Some?
      modifies this
      ensures State() == DoStaticCloseTimer(old(State()))
    {
      MakeNotReady();
      OnDemandStaticSourceStop();
    }

    method DoOnDemandPublisherReadyTimer()
      requires demand.undemandHook.Some?
      modifies this
      ensures State() == DoPubReadyTimer(old(State()))
    {
      RefuseOnHold(TimedOut);
      hold := NOBODY;
      OnDemandPublisherStop();
    }

    method DoOnDemandPublisherCloseTimer()
      requires demand.undemandHook.Some?
      modifies this
      ensures State() == DoPubCloseTimer(old(State()))
    {
      OnDemandPublisherStop();
    }

    // Requests

    method DoReloadConf(newConf: Conf)
      modifies this`conf, this`link
      ensures State() == PathSpec.DoReloadConf(old(State()), newConf)
    {
      conf := newConf;
      if conf.record {
        if link.stream.Some? && !link.recording {
          link := link.(recording := true);
        }
      } else if link.recording {
        link := link.(recording := false);
      }
    }

    method DoSourceStaticSetReady(req: ReqId, outcome: SetReadyOutcome)
      modifies this
      ensures State() == DoStaticSetReady(old(State()), req, outcome)
    {
      var ok := MakeReady(outcome);
      if !ok {
        Send(req, Refused(CannotStart));
        return;
      }
      if conf.HasOnDemandStaticSource() {
        demand := demand.(source := demand.source.(readyTimer := false));
        OnDemandStaticSourceScheduleClose();
      }
      supply := supply.(sourceReady := true);
      ConsumeOnHoldRequests();
      Send(req, GotStream(link.stream.value));
    }

    method DoSourceStaticSetNotReady(req: ReqId)
      requires supply.running && link.notReadyHook.Some?
      modifies this
      ensures State() == DoStaticSetNotReady(old(State()), req)
    {
      MakeNotReady();
      // the source must be free to go before the handler is waited for
      Send(req, Done);
      supply := supply.(sourceReady := false);
      if conf.HasOnDemandStaticSource() && demand.source.state != Initial {
        OnDemandStaticSourceStop();
      }
    }

    method DoDescribe(req: ReqId, base: string)
      requires CanDemand(State())
      modifies this
      ensures State() == PathSpec.DoDescribe(old(State()), req, base)
    {
      if supply.source.Redirect? {
        Send(req, Redirected(conf.sourceRedirect));
        return;
      }
      if link.stream.Some? {
        Send(req, GotStream(link.stream.value));
        return;
      }
      if conf.HasOnDemandStaticSource() {
        if demand.source.state == Initial {
          OnDemandStaticSourceStart();
        }
        hold := hold.(describes := hold.describes + [req]);
        return;
      }
      if conf.HasOnDemandPublisher() {
        if demand.publisher.state == Initial {
          OnDemandPublisherStart();
        }
        hold := hold.(describes := hold.describes + [req]);
        return;
      }
      if conf.fallback.Some? {
        Send(req, Redirected(FallbackURL(conf.fallback.value, base)));
        return;
      }
      Send(req, Refused(NoOnePublishing));
    }

    method DoRemovePublisher(req: ReqId, publisher: PublisherId)
      requires link.stream.Some? ==> link.notReadyHook.Some?
      modifies this
      ensures State() == PathSpec.DoRemovePublisher(old(State()), req, publisher)
    {
      if supply.source == Publisher(publisher) {
        ExecuteRemovePublisher();
      }
      Send(req, Done);
      supply := supply.(started := supply.started - {publisher});
    }

    method DoAddPublisher(req: ReqId, publisher: PublisherId)
      requires link.stream.Some? ==> link.notReadyHook.Some?
      requires conf.source.FromPublisher? ==> supply.source.NoSource? || supply.source.Publisher?
      modifies this
      ensures State() == PathSpec.DoAddPublisher(old(State()), req, publisher)
    {
      if !conf.source.FromPublisher? {
        Send(req, Refused(NotAPublisherPath));
        return;
      }
      if !supply.source.NoSource? {
        if !conf.overridePublisher {
          Send(req, Refused(AlreadyPublishing));
          return;
        }
        supply := supply.(closed := supply.closed + [supply.source.id]);
        ExecuteRemovePublisher();
      }
      supply := supply.(source := Publisher(publisher));
      Send(req, GotPath);
    }

    method DoStartPublisher(req: ReqId, publisher: PublisherId, outcome: SetReadyOutcome)
      modifies this
      ensures State() == PathSpec.DoStartPublisher(old(State()), req, publisher, outcome)
    {
      if supply.source != Publisher(publisher) {
        Send(req, Refused(NotAssignedAnymore));
        return;
      }
      var ok := MakeReady(outcome);
      if !ok {
        Send(req, Refused(CannotStart));
        return;
      }
      if conf.HasOnDemandPublisher() && demand.publisher.state != Initial {
        demand := demand.(publisher := demand.publisher.(readyTimer := false));
        OnDemandPublisherScheduleClose();
      }
      supply := supply.(started := supply.started + {publisher});
      ConsumeOnHoldRequests();
      Send(req, GotStream(link.stream.value));
    }

    method DoStopPublisher(req: ReqId, publisher: PublisherId)
      requires link.stream.Some? ==> link.notReadyHook.Some?
      modifies this
      ensures State() == PathSpec.DoStopPublisher(old(State()), req, publisher)
    {
      if supply.source == Publisher(publisher) && link.stream.Some? {
        MakeNotReady();
      }
      Send(req, Done);
      supply := supply.(started := supply.started - {publisher});
    }

    method DoAddReader(req: ReqId, reader: ReaderId)
      requires CanDemand(State())
      modifies this
      ensures State() == PathSpec.DoAddReader(old(State()), req, reader)
    {
      if link.stream.Some? {
        AddReaderPost(ReaderReq(req, reader));
        return;
      }
      if conf.HasOnDemandStaticSource() {
        if demand.source.state == Initial {
          OnDemandStaticSourceStart();
        }
        hold := hold.(readers := hold.readers + [ReaderReq(req, reader)]);
        return;
      }
      if conf.HasOnDemandPublisher() {
        if demand.publisher.state == Initial {
          OnDemandPublisherStart();
        }
        hold := hold.(readers := hold.readers + [ReaderReq(req, reader)]);
        return;
      }
      Send(req, Refused(NoOnePublishing));
    }

    method DoRemoveReader(req: ReqId, reader: ReaderId)
      modifies this
      ensures State() == PathSpec.DoRemoveReader(old(State()), req, reader)
    {
      if reader in crowd.readers {
        crowd := crowd.(readers := crowd.readers - {reader}, left := crowd.left + [reader]);
      }
      Send(req, Done);
      if crowd.readers == {} {
        if conf.HasOnDemandStaticSource() {
          if demand.source.state == Ready {
            OnDemandStaticSourceScheduleClose();
          }
        } else if conf.HasOnDemandPublisher() {
          if demand.publisher.state == Ready {
            OnDemandPublisherScheduleClose();
          }
        }
      }
    }

    // The loop

    method ReceiveEvent(e: Event)
      modifies this`books, this`demand
      ensures State() == Receive(old(State()), e)
    {
      match e
      case StaticReadyTimer => demand := demand.(source := demand.source.(readyTimer := false));
      case StaticCloseTimer => demand := demand.(source := demand.source.(closeTimer := false));
      case PubReadyTimer => demand := demand.(publisher := demand.publisher.(readyTimer := false));
      case PubCloseTimer => demand := demand.(publisher := demand.publisher.(closeTimer := false));
      case ReloadConf(_) =>
      case _ => books := books.(accepted := books.accepted + [e.req]);
    }

    method Handle(e: Event)
      requires Inv(State()) && Allowed(State(), e)
      modifies this
      ensures State() == Next(old(State()), e)
    {
      ReceiveEvent(e);
      match e
      case StaticReadyTimer => DoOnDemandStaticSourceReadyTimer();
      case StaticCloseTimer => DoOnDemandStaticSourceCloseTimer();
      case PubReadyTimer => DoOnDemandPublisherReadyTimer();
      case PubCloseTimer => DoOnDemandPublisherCloseTimer();
      case ReloadConf(newConf) => DoReloadConf(newConf);
      case StaticSetReady(req, outcome) => DoSourceStaticSetReady(req, outcome);
      case StaticSetNotReady(req) => DoSourceStaticSetNotReady(req);
      case Describe(req, base) => DoDescribe(req, base);
      case AddPublisher(req, publisher) => DoAddPublisher(req, publisher);
      case RemovePublisher(req, publisher) => DoRemovePublisher(req, publisher);
      case StartPublisher(req, publisher, outcome) => DoStartPublisher(req, publisher, outcome);
      case StopPublisher(req, publisher) => DoStopPublisher(req, publisher);
      case AddReader(req, reader) => DoAddReader(req, reader);
      case RemoveReader(req, reader) => DoRemoveReader(req, reader);
    }

    method ShouldClose() returns (b: bool)
      ensures b == PathSpec.ShouldClose(State())
    {
      b := conf.regexp.Some? && supply.source.NoSource? && crowd.readers == {} &&
        |hold.describes| == 0 && |hold.readers| == 0;
    }

    /** `runInner`: it returns when the path is not in use any more, or when the context ends after the last event. */
    method RunInner(events: seq<Event>)
      requires Inv(State()) && Admissible(State(), events)
      modifies this
      ensures Inv(old(State())) && State() == RunFrom(old(State()), events)
    {
      ghost var s := State();
      var i := 0;
      while i < |events|
        invariant 0 <= i <= |events|
        invariant Inv(State()) && Admissible(State(), events[i..])
        invariant RunFrom(State(), events[i..]) == RunFrom(s, events)
      {
        ghost var before, rest := State(), events[i..];
        assert rest[0] == events[i] && rest[1..] == events[i + 1..];
        Handle(events[i]);
        i := i + 1;
        assert State() == Next(before, rest[0]);
        if ClosesAfter(events[i - 1]) {
          var unused := ShouldClose();
          if unused {
            assert |rest| == 1;
            return;
          }
        }
      }
    }

    /** The part of `run` after the loop. */
    method Terminate()
      requires Basic(State())
      modifies this
      ensures State() == PathSpec.Terminate(old(State()))
    {
      demand := demand.(source := TimersStopped(demand.source), publisher := TimersStopped(demand.publisher));
      RefuseOnHold(Terminated);
      if link.stream.Some? {
        MakeNotReady();
      }
      if supply.source.StaticSource? {
        if !conf.sourceOnDemand || demand.source.state != Initial {
          StopHandler();
        }
      } else if supply.source.Publisher? {
        supply := supply.(closed := supply.closed + [supply.source.id]);
      }
      if demand.undemandHook.Some? {
        demand := demand.(hooks := demand.hooks.(called := demand.hooks.called + [demand.undemandHook.value]));
      }
    }

    /** `run`: it settles everything. */
    method Run(events: seq<Event>)
      requires Inv(State()) && Admissible(State(), events)
      modifies this
      ensures Inv(old(State())) && Settled(RunFrom(old(State()), events), State())
      ensures State() == PathSpec.Terminate(RunFrom(old(State()), events))
    {
      RunInner(events);
      TerminateSettles(State());
      Terminate();
    }
  }

  /** A path is created and run. */
  method CreateAndRun(conf: Conf, events: seq<Event>) returns (pa: Path)
    requires conf.Valid() && (StartInv(conf); Admissible(PathSpec.Start(conf), events))
    ensures (StartInv(conf); Settled(RunFrom(PathSpec.Start(conf), events), pa.State()))
    ensures PathLinks.Clean(pa.State()) <==> PathLinks.NoHookLost(conf, events)
  {
    StartInv(conf);
    PathLinks.RunIsCleanExactlyWhen(conf, events);
    pa := new Path(conf);
    pa.Run(events);
  }
}
