/**
 * What each event changes (core/path.go): the configuration, the source, the stream, the readers, and the state of the
 * machine that serves on demand, each with the exact events that change it.
 */
module PathEffects {
  import opened Common
  import opened PathConf
  import opened PathSpec
  import opened PathSafety
  import opened PathRuns
  import opened PathReplies

  lemma {:induction false} AddReadersMachines(s: State, hold: seq<ReaderReq>)
    requires s.link.stream.Some?
    ensures var t := AddReaders(s, hold);
      && s.crowd.readers <= t.crowd.readers
      && t.demand == (if t.crowd.readers == s.crowd.readers then s.demand else Wanted(s.conf, s.demand))
    decreases |hold|
  {
    if hold != [] {
      AddReadersMachines(s, hold[..|hold| - 1]);
      var t := AddReaders(s, hold[..|hold| - 1]);
      assert s.crowd.readers <= t.crowd.readers <= AddReaders(s, hold).crowd.readers;
    }
  }

  /** The configuration changes by a reload only, and a reload changes it to what it brings. */
  lemma ConfAfter(s: State, e: Event)
    requires CanStep(s, e)
    ensures Step(s, e).conf == if e.ReloadConf? then e.newConf else s.conf
  {
  }

  // The source

  /** The publisher is the source of the path. */
  predicate Has(s: State, publisher: PublisherId) {
    s.supply.source == Publisher(publisher)
  }

  /** A publisher becomes the source when it is given the path, and ceases to be it when it or another one wants so. */
  lemma SourceAfter(s: State, e: Event, publisher: PublisherId)
    requires CanStep(s, e)
    ensures Has(Step(s, e), publisher) <==>
            || (e.AddPublisher? && e.publisher == publisher && Gets(s, e, e.req, GotPath))
            || (Has(s, publisher) && !(e.AddPublisher? && Gets(s, e, e.req, GotPath)) &&
                !(e.RemovePublisher? && e.publisher == publisher))
    ensures !s.conf.source.FromPublisher? ==> Step(s, e).supply.source == s.supply.source
  {
  }

  /** A publisher is closed when it is overridden, and by no other event. */
  lemma PublisherIsClosedExactlyWhen(s: State, e: Event)
    requires CanStep(s, e)
    ensures Step(s, e).supply.closed ==
      s.supply.closed +
      if e.AddPublisher? && Gets(s, e, e.req, GotPath) && s.supply.source.Publisher? then [s.supply.source.id] else []
  {
  }

  // The stream

  /** The stream is ended by the timer or the source of an on-demand path, or by the end of the publisher it is from. */
  predicate EndsStream(s: State, e: Event) {
    || e.StaticCloseTimer? || e.StaticSetNotReady?
    || (e.AddPublisher? && s.conf.source.FromPublisher? && s.conf.overridePublisher)
    || ((e.RemovePublisher? || e.StopPublisher?) && Has(s, e.publisher))
  }

  predicate FailsToAllocate(s: State, e: Event) {
    (e.StaticSetReady? || (e.StartPublisher? && Has(s, e.publisher))) && e.outcome.StreamFailed?
  }

  lemma StreamAfter(s: State, e: Event)
    requires CanStep(s, e)
    ensures Step(s, e).link.stream ==
      if CreatesStream(s, e) then Some(s.link.hooks.issued)
      else if EndsStream(s, e) || FailsToAllocate(s, e) then None
      else s.link.stream
  {
    if CreatesStream(s, e) { NewStreamGoesToAll(s, e); }
  }

  /** Readers go with the stream, or when they leave; they come by asking, at once or after having been on hold. */
  lemma ReadersAfter(s: State, e: Event, reader: ReaderId)
    requires CanStep(s, e)
    ensures reader in Step(s, e).crowd.readers && reader !in s.crowd.readers ==>
            || (e.AddReader? && e.reader == reader && s.link.stream.Some? && !Full(s))
            || (CreatesStream(s, e) && exists i :: 0 <= i < |s.hold.readers| && s.hold.readers[i].author == reader)
    ensures reader in s.crowd.readers && reader !in Step(s, e).crowd.readers <==>
            reader in s.crowd.readers && (LosesAll(s, e) || (e.RemoveReader? && e.reader == reader))
    ensures e.AddReader? && s.link.stream.Some? && !Full(s) ==> e.reader in Step(s, e).crowd.readers
  {
    if CreatesStream(s, e) {
      NewStreamGoesToAll(s, e);
    } else if e.StaticSetReady? || e.StartPublisher? {
      assert Step(s, e).crowd == s.crowd;
    }
  }

  /** The stream that ends takes its readers with it. */
  predicate LosesAll(s: State, e: Event) {
    EndsStream(s, e) && (s.conf.source.FromStatic? || s.link.stream.Some?)
  }

  // The machine

  /** The state of the machine that serves on demand. */
  function Machine(s: State): OnDemandState {
    if s.conf.source.FromStatic? then s.demand.source.state else s.demand.publisher.state
  }

  /** The request of this event is put on hold. */
  predicate IsPutOnHold(s: State, e: Event) {
    (e.Describe? || e.AddReader?) && s.link.stream.None?
  }

  /** The machine gives up: a timer fires, or the static source withdraws. */
  predicate Stops(s: State, e: Event) {
    if s.conf.source.FromStatic? then e.StaticReadyTimer? || e.StaticCloseTimer? || e.StaticSetNotReady?
    else e.PubReadyTimer? || e.PubCloseTimer?
  }

  predicate SomebodyComes(s: State, e: Event)
    requires CanStep(s, e)
  {
    Step(s, e).crowd.readers > s.crowd.readers
  }

  /** What the machine does: it is started, made ready, stopped, reopened by a reader, left by the last one. */
  function Moved(s: State, e: Event): OnDemandState
    requires CanStep(s, e)
  {
    var m := Machine(s);
    if Stops(s, e) then Initial
    else if CreatesStream(s, e) && m != Initial then (if SomebodyComes(s, e) then Ready else Closing)
    else
      match m
      case Initial => if IsPutOnHold(s, e) then WaitingReady else Initial
      case WaitingReady => WaitingReady
      case Ready => if e.RemoveReader? && Step(s, e).crowd.readers == {} then Closing else Ready
      case Closing => if SomebodyComes(s, e) then Ready else Closing
  }

  lemma MachineMoves(s: State, e: Event)
    requires CanStep(s, e) && ServesOnDemand(s)
    ensures Machine(Step(s, e)) == Moved(s, e)
  {
    if CreatesStream(s, e) {
      CreatedMachineMoves(s, e);
    } else if s.conf.source.FromStatic? {
      SourceMachineMoves(s, e);
    } else {
      PublisherMachineMoves(s, e);
    }
  }

  lemma SourceMachineMoves(s: State, e: Event)
    requires CanStep(s, e) && ServesOnDemand(s) && !CreatesStream(s, e) && s.conf.source.FromStatic?
    ensures Machine(Step(s, e)) == Moved(s, e)
  {
  }

  lemma PublisherMachineMoves(s: State, e: Event)
    requires CanStep(s, e) && ServesOnDemand(s) && !CreatesStream(s, e) && !s.conf.source.FromStatic?
    ensures Machine(Step(s, e)) == Moved(s, e)
  {
  }

  lemma CreatedMachineMoves(s: State, e: Event)
    requires CanStep(s, e) && ServesOnDemand(s) && CreatesStream(s, e)
    ensures Machine(Step(s, e)) == Moved(s, e)
  {
    forall u: State, hold | u.link.stream.Some?
      ensures var t := AddReaders(u, hold);
        && u.crowd.readers <= t.crowd.readers
        && t.demand == (if t.crowd.readers == u.crowd.readers then u.demand else Wanted(u.conf, u.demand))
    {
      AddReadersMachines(u, hold);
    }
  }

  /** A publisher that serves on demand and has no reader is about to be closed. */
  predicate UnusedIsClosing(s: State) {
    s.conf.runOnDemand.Some? && s.link.stream.Some? && s.crowd.readers == {} ==>
      s.demand.publisher.state == Initial || s.demand.publisher.state == Closing
  }

  lemma StepKeepsUnusedClosing(s: State, e: Event)
    requires CanStep(s, e) && UnusedIsClosing(s)
    ensures UnusedIsClosing(Step(s, e))
  {
    if s.conf.runOnDemand.Some? {
      MachineMoves(s, e);
      StreamAfter(s, e);
      StepKeepsBasic(s, e);
    }
  }

  /** Nobody publishes on the path, nobody reads it and nobody waits for it. */
  predicate Unused(s: State) {
    s.conf.source.FromPublisher? && !s.supply.source.Publisher? && s.crowd.readers == {} && s.hold == NOBODY
  }

  /**
   * The loop of a path ends when the path of a regular expression is unused after an event: in any way that leads there
   * from a path in use, but not by an event that changes nothing of it.
   */
  lemma LeavesWhenUnused(s: State, e: Event)
    requires CanStep(s, e)
    ensures Leaves(e, Step(s, e)) ==> Step(s, e).conf.regexp.Some? && Unused(Step(s, e))
    ensures Step(s, e).conf.regexp.Some? && Unused(Step(s, e)) && !(s.conf.regexp.Some? && Unused(s)) ==>
            Leaves(e, Step(s, e))
  {
  }
}
