/**
 * The event loop of a path (core/path.go) as a state machine on values: one function per step of the loop.
 * `PathActor` proves that the methods of the class compute these functions, `PathSafety` proves what they keep.
 */
module PathSpec {
  import opened Common
  import opened PathConf

  type ReqId = nat
  type ReaderId = nat
  type PublisherId = nat

  datatype Error =
    | TimedOut
    | Terminated
    | NoOnePublishing
    | NotAPublisherPath
    | AlreadyPublishing
    | NotAssignedAnymore
    | TooManyReaders
    | CannotStart

  datatype Reply = GotStream(stream: nat) | GotPath | Redirected(url: string) | Done | Refused(why: Error)

  // Books: the requests taken from the channels, and the replies sent

  datatype Answer = Answer(req: ReqId, reply: Reply)

  datatype Books = Books(accepted: seq<ReqId>, answers: seq<Answer>)

  datatype ReaderReq = ReaderReq(req: ReqId, author: ReaderId)

  datatype Hold = Hold(describes: seq<ReqId>, readers: seq<ReaderReq>)
  {
    predicate Empty() { describes == [] && readers == [] }
  }

  const NOBODY := Hold([], [])

  function Say(b: Books, req: ReqId, reply: Reply): Books {
    b.(answers := b.answers + [Answer(req, reply)])
  }

  function AnswersTo(ids: seq<ReqId>, reply: Reply): (r: seq<Answer>)
    ensures |r| == |ids|
  {
    seq(|ids|, i requires 0 <= i < |ids| => Answer(ids[i], reply))
  }

  function ReqsOf(hold: seq<ReaderReq>): (r: seq<ReqId>)
    ensures |r| == |hold|
  {
    seq(|hold|, i requires 0 <= i < |hold| => hold[i].req)
  }

  /** Answer everything on hold with the same error. */
  function RefuseHeld(b: Books, h: Hold, why: Error): Books {
    b.(answers := b.answers + AnswersTo(h.describes, Refused(why)) + AnswersTo(ReqsOf(h.readers), Refused(why)))
  }

  // Link: the stream of the path and everything that lives as long as it

  datatype Notice = PathReady | PathNotReady

  /** Hooks are numbered in the order in which they are issued; `called` lists the calls of their closing function. */
  datatype Hooks = Hooks(issued: nat, called: seq<nat>)

  datatype Link = Link(
    stream: Option<nat>, recording: bool, notReadyHook: Option<nat>, hooks: Hooks, notices: seq<Notice>)

  /** How `setReady` goes: the transcoder refuses, the stream cannot be allocated, or a stream is created. */
  datatype SetReadyOutcome = TranscoderFailed | StreamFailed | Created

  /** `setReady`; streams are numbered like the hooks issued with them. */
  function SetReady(l: Link, record: bool, outcome: SetReadyOutcome): Link {
    match outcome
    case TranscoderFailed => l
    case StreamFailed => l.(stream := None)
    case Created =>
      Link(Some(l.hooks.issued), l.recording || record, Some(l.hooks.issued),
           l.hooks.(issued := l.hooks.issued + 1), l.notices + [PathReady])
  }

  /** The part of `setNotReady` that concerns the stream. */
  function Unlink(l: Link): Link
    requires l.notReadyHook.Some?
  {
    Link(None, false, l.notReadyHook,
         l.hooks.(called := l.hooks.called + [l.notReadyHook.value]), l.notices + [PathNotReady])
  }

  // Crowd: the readers of the stream

  datatype Crowd = Crowd(
    readers: set<ReaderId>, admitted: seq<ReaderId>, left: seq<ReaderId>, kicked: seq<set<ReaderId>>)

  function Admit(c: Crowd, r: ReaderId): Crowd {
    c.(readers := c.readers + {r}, admitted := c.admitted + [r])
  }

  function Leave(c: Crowd, r: ReaderId): Crowd {
    if r in c.readers then c.(readers := c.readers - {r}, left := c.left + [r]) else c
  }

  function Kick(c: Crowd): Crowd {
    c.(readers := {}, kicked := c.kicked + [c.readers])
  }

  // Demand: the two on-demand machines with their timers and the undemand hook

  datatype OnDemandState = Initial | WaitingReady | Ready | Closing

  datatype OnDemand = OnDemand(state: OnDemandState, readyTimer: bool, closeTimer: bool)

  const IDLE := OnDemand(Initial, false, false)

  datatype Demand = Demand(source: OnDemand, publisher: OnDemand, undemandHook: Option<nat>, hooks: Hooks)

  function Requested(m: OnDemand): OnDemand {
    m.(state := WaitingReady, readyTimer := true)
  }

  function CloseScheduled(m: OnDemand): OnDemand {
    m.(state := Closing, closeTimer := true)
  }

  function Stopped(m: OnDemand): OnDemand {
    m.(state := Initial, closeTimer := m.closeTimer && m.state != Closing)
  }

  function Reopened(m: OnDemand): OnDemand {
    if m.state == Closing then m.(state := Ready, closeTimer := false) else m
  }

  /** `onDemandPublisherStart` */
  function PubStart(d: Demand): Demand {
    d.(undemandHook := Some(d.hooks.issued), hooks := d.hooks.(issued := d.hooks.issued + 1),
       publisher := Requested(d.publisher))
  }

  /** `onDemandPublisherStop` */
  function PubStop(d: Demand): Demand
    requires d.undemandHook.Some?
  {
    d.(undemandHook := None, hooks := d.hooks.(called := d.hooks.called + [d.undemandHook.value]),
       publisher := Stopped(d.publisher))
  }

  /** A reader has arrived: a machine that was about to close goes back to ready. */
  function Wanted(conf: Conf, d: Demand): Demand {
    if conf.HasOnDemandStaticSource() then d.(source := Reopened(d.source))
    else if conf.HasOnDemandPublisher() then d.(publisher := Reopened(d.publisher))
    else d
  }

  /** The last reader has left: schedule the closing of a machine that is ready. */
  function Unwanted(conf: Conf, d: Demand): Demand {
    if conf.HasOnDemandStaticSource() then
      if d.source.state == Ready then d.(source := CloseScheduled(d.source)) else d
    else if conf.HasOnDemandPublisher() && d.publisher.state == Ready then
      d.(publisher := CloseScheduled(d.publisher))
    else
      d
  }

  // Supply: who provides the stream

  datatype Source = NoSource | Redirect | StaticSource | Publisher(id: PublisherId)

  /**
   * `running` is the field of the static source handler. `sourceReady` and `started` are what the other side knows:
   * the running source has been told that it is ready, and a publisher has been told that it is publishing.
   */
  datatype Supply = Supply(
    source: Source, running: bool, sourceReady: bool, started: set<PublisherId>, closed: seq<PublisherId>)

  // Starting a handler twice or stopping it twice panics: both are preconditions.

  function HandlerStart(u: Supply): Supply
    requires !u.running
  {
    u.(running := true)
  }

  function HandlerStop(u: Supply): Supply
    requires u.running
  {
    u.(running := false, sourceReady := false)
  }

  // The path

  datatype State = State(conf: Conf, supply: Supply, link: Link, crowd: Crowd, demand: Demand, hold: Hold, books: Books)

  datatype Event =
    | StaticReadyTimer
    | StaticCloseTimer
    | PubReadyTimer
    | PubCloseTimer
    | ReloadConf(newConf: Conf)
    | StaticSetReady(req: ReqId, outcome: SetReadyOutcome)
    | StaticSetNotReady(req: ReqId)
    | Describe(req: ReqId, base: string)
    | AddPublisher(req: ReqId, publisher: PublisherId)
    | RemovePublisher(req: ReqId, publisher: PublisherId)
    | StartPublisher(req: ReqId, publisher: PublisherId, outcome: SetReadyOutcome)
    | StopPublisher(req: ReqId, publisher: PublisherId)
    | AddReader(req: ReqId, reader: ReaderId)
    | RemoveReader(req: ReqId, reader: ReaderId)

  function SayIn(s: State, req: ReqId, reply: Reply): State {
    s.(books := Say(s.books, req, reply))
  }

  function SetNotReady(s: State): State
    requires s.link.notReadyHook.Some?
  {
    s.(link := Unlink(s.link), crowd := Kick(s.crowd))
  }

  function StaticStart(s: State): State
    requires !s.supply.running
  {
    s.(supply := HandlerStart(s.supply), demand := s.demand.(source := Requested(s.demand.source)))
  }

  function StaticStop(s: State): State
    requires s.supply.running
  {
    s.(supply := HandlerStop(s.supply), demand := s.demand.(source := Stopped(s.demand.source)))
  }

  function AddReaderPost(s: State, r: ReaderReq): State
    requires s.link.stream.Some?
  {
    if r.author in s.crowd.readers then
      SayIn(s, r.req, GotStream(s.link.stream.value))
    else if s.conf.maxReaders != 0 && |s.crowd.readers| >= s.conf.maxReaders then
      SayIn(s, r.req, Refused(TooManyReaders))
    else
      s.(crowd := Admit(s.crowd, r.author),
         demand := Wanted(s.conf, s.demand),
         books := Say(s.books, r.req, GotStream(s.link.stream.value)))
  }

  function AddReaders(s: State, hold: seq<ReaderReq>): (r: State)
    requires s.link.stream.Some?
    ensures r == s.(crowd := r.crowd, demand := r.demand, books := r.books)
    decreases |hold|
  {
    if hold == [] then s
    else AddReaderPost(AddReaders(s, hold[..|hold| - 1]), hold[|hold| - 1])
  }

  function ConsumeHeld(s: State): State
    requires s.link.stream.Some?
  {
    var reply := GotStream(s.link.stream.value);
    AddReaders(s.(books := s.books.(answers := s.books.answers + AnswersTo(s.hold.describes, reply)), hold := NOBODY),
               s.hold.readers)
  }

  // The steps of the loop

  function DoStaticReadyTimer(s: State): State
    requires s.supply.running
  {
    StaticStop(s.(books := RefuseHeld(s.books, s.hold, TimedOut), hold := NOBODY))
  }

  function DoStaticCloseTimer(s: State): State
    requires s.supply.running && s.link.notReadyHook.Some?
  {
    StaticStop(SetNotReady(s))
  }

  function DoPubReadyTimer(s: State): State
    requires s.demand.undemandHook.Some?
  {
    s.(books := RefuseHeld(s.books, s.hold, TimedOut), hold := NOBODY, demand := PubStop(s.demand))
  }

  function DoPubCloseTimer(s: State): State
    requires s.demand.undemandHook.Some?
  {
    s.(demand := PubStop(s.demand))
  }

  function DoReloadConf(s: State, newConf: Conf): State {
    s.(conf := newConf,
       link := s.link.(recording := newConf.record && (s.link.recording || s.link.stream.Some?)))
  }

  /** A stream has been created: the ready timer is stopped and the machine waits for readers. */
  function Awakened(m: OnDemand): OnDemand {
    CloseScheduled(m.(readyTimer := false))
  }

  function DoStaticSetReady(s: State, req: ReqId, outcome: SetReadyOutcome): State {
    var link := SetReady(s.link, s.conf.record, outcome);
    if !outcome.Created? then
      SayIn(s.(link := link), req, Refused(CannotStart))
    else
      var demand :=
        if s.conf.HasOnDemandStaticSource() then s.demand.(source := Awakened(s.demand.source)) else s.demand;
      var s1 := ConsumeHeld(s.(link := link, demand := demand, supply := s.supply.(sourceReady := true)));
      SayIn(s1, req, GotStream(link.stream.value))
  }

  function DoStaticSetNotReady(s: State, req: ReqId): State
    requires s.supply.running && s.link.notReadyHook.Some?
  {
    var s1 := SayIn(SetNotReady(s), req, Done).(supply := s.supply.(sourceReady := false));
    if s.conf.HasOnDemandStaticSource() && s.demand.source.state != Initial then StaticStop(s1) else s1
  }

  function FallbackURL(fallback: string, base: string): string {
    if fallback != "" && fallback[0] == '/' then base + fallback else fallback
  }

  /** Neither a stream nor a handler that already works on one. */
  predicate CanDemand(s: State) {
    s.conf.HasOnDemandStaticSource() && s.demand.source.state == Initial && s.link.stream.None? ==> !s.supply.running
  }

  /** Ask for the stream on behalf of a request that is about to be held. */
  function DemandStream(s: State): State
    requires s.link.stream.None? && CanDemand(s)
  {
    if s.conf.HasOnDemandStaticSource() then
      if s.demand.source.state == Initial then StaticStart(s) else s
    else
      if s.demand.publisher.state == Initial then s.(demand := PubStart(s.demand)) else s
  }

  function DoDescribe(s: State, req: ReqId, base: string): State
    requires CanDemand(s)
  {
    if s.supply.source.Redirect? then
      SayIn(s, req, Redirected(s.conf.sourceRedirect))
    else if s.link.stream.Some? then
      SayIn(s, req, GotStream(s.link.stream.value))
    else if s.conf.HasOnDemandStaticSource() || s.conf.HasOnDemandPublisher() then
      DemandStream(s).(hold := s.hold.(describes := s.hold.describes + [req]))
    else if s.conf.fallback.Some? then
      SayIn(s, req, Redirected(FallbackURL(s.conf.fallback.value, base)))
    else
      SayIn(s, req, Refused(NoOnePublishing))
  }

  /** `executeRemovePublisher` */
  function DropPublisher(s: State): State
    requires s.link.stream.Some? ==> s.link.notReadyHook.Some?
  {
    var s1 := if s.link.stream.Some? then SetNotReady(s) else s;
    s1.(supply := s.supply.(source := NoSource))
  }

  function DoRemovePublisher(s: State, req: ReqId, publisher: PublisherId): State
    requires s.link.stream.Some? ==> s.link.notReadyHook.Some?
  {
    var s1 := if s.supply.source == Publisher(publisher) then DropPublisher(s) else s;
    SayIn(s1, req, Done).(supply := s1.supply.(started := s.supply.started - {publisher}))
  }

  function DoAddPublisher(s: State, req: ReqId, publisher: PublisherId): State
    requires s.link.stream.Some? ==> s.link.notReadyHook.Some?
    requires s.conf.source.FromPublisher? ==> s.supply.source.NoSource? || s.supply.source.Publisher?
  {
    if !s.conf.source.FromPublisher? then
      SayIn(s, req, Refused(NotAPublisherPath))
    else if s.supply.source.NoSource? then
      SayIn(s, req, GotPath).(supply := s.supply.(source := Publisher(publisher)))
    else if !s.conf.overridePublisher then
      SayIn(s, req, Refused(AlreadyPublishing))
    else
      SayIn(DropPublisher(s), req, GotPath).(
        supply := s.supply.(source := Publisher(publisher), closed := s.supply.closed + [s.supply.source.id]))
  }

  function DoStartPublisher(s: State, req: ReqId, publisher: PublisherId, outcome: SetReadyOutcome): State {
    if s.supply.source != Publisher(publisher) then
      SayIn(s, req, Refused(NotAssignedAnymore))
    else
      var link := SetReady(s.link, s.conf.record, outcome);
      if !outcome.Created? then
        SayIn(s.(link := link), req, Refused(CannotStart))
      else
        var demand :=
          if s.conf.HasOnDemandPublisher() && s.demand.publisher.state != Initial
          then s.demand.(publisher := Awakened(s.demand.publisher)) else s.demand;
        var supply := s.supply.(started := s.supply.started + {publisher});
        SayIn(ConsumeHeld(s.(link := link, demand := demand, supply := supply)), req, GotStream(link.stream.value))
  }

  function DoStopPublisher(s: State, req: ReqId, publisher: PublisherId): State
    requires s.link.stream.Some? ==> s.link.notReadyHook.Some?
  {
    var s1 := if s.supply.source == Publisher(publisher) && s.link.stream.Some? then SetNotReady(s) else s;
    SayIn(s1, req, Done).(supply := s.supply.(started := s.supply.started - {publisher}))
  }

  function DoAddReader(s: State, req: ReqId, reader: ReaderId): State
    requires CanDemand(s)
  {
    if s.link.stream.Some? then
      AddReaderPost(s, ReaderReq(req, reader))
    else if s.conf.HasOnDemandStaticSource() || s.conf.HasOnDemandPublisher() then
      DemandStream(s).(hold := s.hold.(readers := s.hold.readers + [ReaderReq(req, reader)]))
    else
      SayIn(s, req, Refused(NoOnePublishing))
  }

  function DoRemoveReader(s: State, req: ReqId, reader: ReaderId): State {
    var crowd := Leave(s.crowd, reader);
    SayIn(s, req, Done).(crowd := crowd, demand := if crowd.readers == {} then Unwanted(s.conf, s.demand) else s.demand)
  }

  predicate ShouldClose(s: State) {
    s.conf.regexp.Some? && s.supply.source.NoSource? && s.crowd.readers == {} && s.hold.Empty()
  }

  /** The events after which the loop asks `shouldClose`. */
  predicate ClosesAfter(e: Event) {
    e.StaticReadyTimer? || e.StaticCloseTimer? || e.PubReadyTimer? || e.StaticSetNotReady? || e.Describe? ||
    e.RemovePublisher? || e.StopPublisher? || e.AddReader?
  }

  // What the outside promises

  /**
   * A timer fires only while it is armed, and a reload brings a configuration that passed `validate` and that the
   * path manager found updatable. Only a running source announces itself, and it withdraws only what it announced; a
   * publisher that has been started does not ask to be added or started again before it stops or leaves.
   */
  predicate Allowed(s: State, e: Event) {
    match e
    case StaticReadyTimer => s.demand.source.readyTimer
    case StaticCloseTimer => s.demand.source.closeTimer
    case PubReadyTimer => s.demand.publisher.readyTimer
    case PubCloseTimer => s.demand.publisher.closeTimer
    case ReloadConf(newConf) => newConf.Valid() && CanBeUpdated(s.conf, newConf)
    case StaticSetReady(_, _) => s.supply.running
    case StaticSetNotReady(_) => s.supply.running && s.supply.sourceReady
    case AddPublisher(_, publisher) => publisher !in s.supply.started
    case StartPublisher(_, publisher, _) => publisher !in s.supply.started
    case _ => true
  }

  /** The events that come without a request to be answered. */
  predicate Silent(e: Event) {
    e.StaticReadyTimer? || e.StaticCloseTimer? || e.PubReadyTimer? || e.PubCloseTimer? || e.ReloadConf?
  }

  /** What the loop has done before it calls the step: a fired timer is spent, a received request is accepted. */
  function Receive(s: State, e: Event): State {
    match e
    case StaticReadyTimer => s.(demand := s.demand.(source := s.demand.source.(readyTimer := false)))
    case StaticCloseTimer => s.(demand := s.demand.(source := s.demand.source.(closeTimer := false)))
    case PubReadyTimer => s.(demand := s.demand.(publisher := s.demand.publisher.(readyTimer := false)))
    case PubCloseTimer => s.(demand := s.demand.(publisher := s.demand.publisher.(closeTimer := false)))
    case ReloadConf(_) => s
    case _ => s.(books := s.books.(accepted := s.books.accepted + [e.req]))
  }

  // The invariant

  predicate SourceFitsConf(s: State) {
    && s.conf.Valid()
    && (s.conf.source.FromPublisher? ==> s.supply.source.NoSource? || s.supply.source.Publisher?)
    && (s.conf.source.FromRedirect? ==> s.supply.source.Redirect?)
    && (s.conf.HasStaticSource() ==> s.supply.source.StaticSource?)
  }

  // What holds in every run

  predicate BasicSupply(s: State) {
    && (s.supply.running ==> s.conf.HasStaticSource())
    && (s.supply.sourceReady ==> s.supply.running && s.link.notReadyHook.Some?)
    && (s.link.stream.Some? ==> s.link.notReadyHook.Some?)
    && (s.conf.HasStaticSource() ==> (s.link.stream.Some? ==> s.supply.sourceReady))
    && (s.supply.source.NoSource? || s.supply.source.Redirect? ==> s.link.stream.None?)
    && (s.supply.source.Publisher? ==> (s.link.stream.Some? <==> s.supply.source.id in s.supply.started))
  }

  predicate BasicStaticDemand(s: State) {
    var m := s.demand.source;
    if s.conf.HasOnDemandStaticSource() then
      && (s.supply.running <==> m.state != Initial)
      && (s.supply.sourceReady <==> m.state == Ready || m.state == Closing)
      && (m.readyTimer <==> m.state == WaitingReady)
      && (m.closeTimer <==> m.state == Closing)
      && (m.state == WaitingReady ==> !s.hold.Empty())
    else
      && m == IDLE
      && (s.conf.HasStaticSource() ==> s.supply.running)
  }

  predicate BasicHold(s: State) {
    && (!s.conf.HasStaticSource() && s.crowd.readers != {} ==> s.link.stream.Some?)
    && (!s.hold.Empty() ==> s.link.stream.None?)
    && (!s.hold.Empty() ==> s.conf.HasOnDemandStaticSource() || s.conf.HasOnDemandPublisher())
    && (s.conf.maxReaders > 0 ==> |s.crowd.readers| <= s.conf.maxReaders)
  }

  /**
   * It holds whatever a running source does, also when one that is known as ready announces itself again: handlers and
   * hooks are there when they are needed, and timers are armed exactly in their states.
   */
  predicate Basic(s: State) {
    && SourceFitsConf(s)
    && BasicSupply(s)
    && BasicStaticDemand(s)
    && PubDemandInv(s)
    && BasicHold(s)
  }

  // What holds as long as no announcement meets a stream

  /** Who provides the stream; what that side knows agrees with what the path knows. */
  predicate StreamHasSource(s: State) {
    && (s.supply.running ==> s.conf.HasStaticSource())
    && (s.supply.sourceReady ==> s.supply.running)
    && (s.conf.HasStaticSource() ==> (s.link.stream.Some? <==> s.supply.sourceReady))
    && (s.supply.source.NoSource? || s.supply.source.Redirect? ==> s.link.stream.None?)
    && (s.supply.source.Publisher? ==> (s.link.stream.Some? <==> s.supply.source.id in s.supply.started))
  }

  predicate StaticDemandInv(s: State) {
    var m := s.demand.source;
    if s.conf.HasOnDemandStaticSource() then
      && (s.supply.running <==> m.state != Initial)
      && (m.readyTimer <==> m.state == WaitingReady)
      && (m.closeTimer <==> m.state == Closing)
      && (m.state == WaitingReady ==> s.link.stream.None?)
      && (m.state == Ready ==> s.link.stream.Some? && s.crowd.readers != {})
      && (m.state == Closing ==> s.link.stream.Some? && s.crowd.readers == {})
      && (m.state == WaitingReady <==> !s.hold.Empty())
    else
      && m == IDLE
      && (s.conf.HasStaticSource() ==> s.supply.running)
  }

  predicate PubDemandInv(s: State) {
    var m := s.demand.publisher;
    if s.conf.HasOnDemandPublisher() then
      && (s.demand.undemandHook.Some? <==> m.state != Initial)
      && (m.readyTimer <==> m.state == WaitingReady)
      && (m.closeTimer <==> m.state == Closing)
      && (m.state == WaitingReady ==> s.link.stream.None? && !s.hold.Empty())
      && (m.state == Closing ==> s.crowd.readers == {})
    else
      && m == IDLE
      && s.demand.undemandHook.None?
  }

  predicate StreamInv(s: State) {
    && (s.crowd.readers != {} ==> s.link.stream.Some?)
    && (!s.hold.Empty() ==> s.link.stream.None?)
    && (!s.hold.Empty() ==> s.conf.HasOnDemandStaticSource() || s.conf.HasOnDemandPublisher())
    && (s.link.recording <==> s.link.stream.Some? && s.conf.record)
    && (s.conf.maxReaders > 0 ==> |s.crowd.readers| <= s.conf.maxReaders)
  }

  predicate Control(s: State) {
    && SourceFitsConf(s)
    && StreamHasSource(s)
    && StaticDemandInv(s)
    && PubDemandInv(s)
    && StreamInv(s)
  }

  function Alternating(n: nat): (r: seq<Notice>)
    ensures |r| == n
  {
    seq(n, i => if i % 2 == 0 then PathReady else PathNotReady)
  }

  /** Each hook issued has been called once, except the one that is still `open`. */
  predicate OnceEach(h: Hooks, open: Option<nat>) {
    && h.called == Upto(|h.called|)
    && h.issued == |h.called| + (if open.Some? then 1 else 0)
    && (open.Some? ==> open.value == |h.called|)
  }

  /** Notices alternate, starting with ready, and the last one tells whether there is a stream. */
  predicate LinkInv(l: Link) {
    && l.notices == Alternating(|l.notices|)
    && (l.stream.Some? <==> |l.notices| % 2 == 1)
    && OnceEach(l.hooks, l.stream)
    && (l.stream.Some? ==> l.notReadyHook == l.stream)
  }

  /** How often a request occurs in a list of requests, of answers, of readers on hold. */
  function Times(x: nat, ids: seq<nat>): nat {
    if ids == [] then 0 else Times(x, ids[..|ids| - 1]) + One(x, ids[|ids| - 1])
  }

  function TimesAnswered(x: ReqId, answers: seq<Answer>): nat {
    if answers == [] then 0 else TimesAnswered(x, answers[..|answers| - 1]) + One(x, answers[|answers| - 1].req)
  }

  function TimesHeld(x: ReqId, hold: seq<ReaderReq>): nat {
    if hold == [] then 0 else TimesHeld(x, hold[..|hold| - 1]) + One(x, hold[|hold| - 1].req)
  }

  function One(x: nat, y: nat): nat {
    if x == y then 1 else 0
  }

  /** Every time `x` was accepted it has been answered or is held; `due` occurrences are still to be dealt with. */
  predicate Owes(b: Books, h: Hold, x: ReqId, due: nat) {
    Times(x, b.accepted) == TimesAnswered(x, b.answers) + Times(x, h.describes) + TimesHeld(x, h.readers) + due
  }

  ghost predicate Balanced(b: Books, h: Hold) {
    forall x: ReqId :: Owes(b, h, x, 0)
  }

  function TimesKicked(x: ReaderId, kicked: seq<set<ReaderId>>): nat {
    if kicked == [] then 0
    else TimesKicked(x, kicked[..|kicked| - 1]) + if x in kicked[|kicked| - 1] then 1 else 0
  }

  /** Each admission of a reader is still good, ended by the reader, or ended by the end of the stream. */
  predicate Accounted(c: Crowd, x: ReaderId) {
    Times(x, c.admitted) == (if x in c.readers then 1 else 0) + Times(x, c.left) + TimesKicked(x, c.kicked)
  }

  ghost predicate AllAccounted(c: Crowd) {
    forall x: ReaderId :: Accounted(c, x)
  }

  /** Everything that every run keeps. */
  ghost predicate Inv(s: State) {
    && Basic(s)
    && OnceEach(s.demand.hooks, s.demand.undemandHook)
    && Balanced(s.books, s.hold)
    && AllAccounted(s.crowd)
  }

  // Runs

  /** What a step of the loop may rely on: no `start` of a running handler, no call of a hook that is not there. */
  predicate CanStep(s: State, e: Event) {
    Basic(s) && Allowed(s, e)
  }

  /** Stream, source, machines, readers and hooks agree with each other. */
  predicate Tidy(s: State) {
    Control(s) && LinkInv(s.link)
  }

  /**
   * A source that the path knows as ready announces itself again, and its announcement goes as far as the stream. A
   * source that returns without withdrawing does so, when it has been created again.
   */
  predicate MeetsStream(s: State, e: Event) {
    e.StaticSetReady? && s.supply.sourceReady && !e.outcome.TranscoderFailed?
  }

  function Step(s: State, e: Event): State
    requires CanStep(s, e)
  {
    var r := Receive(s, e);
    match e
    case StaticReadyTimer => DoStaticReadyTimer(r)
    case StaticCloseTimer => DoStaticCloseTimer(r)
    case PubReadyTimer => DoPubReadyTimer(r)
    case PubCloseTimer => DoPubCloseTimer(r)
    case ReloadConf(newConf) => DoReloadConf(r, newConf)
    case StaticSetReady(req, outcome) => DoStaticSetReady(r, req, outcome)
    case StaticSetNotReady(req) => DoStaticSetNotReady(r, req)
    case Describe(req, base) => DoDescribe(r, req, base)
    case AddPublisher(req, publisher) => DoAddPublisher(r, req, publisher)
    case RemovePublisher(req, publisher) => DoRemovePublisher(r, req, publisher)
    case StartPublisher(req, publisher, outcome) => DoStartPublisher(r, req, publisher, outcome)
    case StopPublisher(req, publisher) => DoStopPublisher(r, req, publisher)
    case AddReader(req, reader) => DoAddReader(r, req, reader)
    case RemoveReader(req, reader) => DoRemoveReader(r, req, reader)
  }

  /** A path just created by the path manager, before its loop starts. */
  function Start(conf: Conf): State {
    var source :=
      if conf.source.FromRedirect? then Redirect else if conf.HasStaticSource() then StaticSource else NoSource;
    var supply := Supply(source, false, false, {}, []);
    State(conf,
          if conf.HasStaticSource() && !conf.sourceOnDemand then HandlerStart(supply) else supply,
          Link(None, false, None, Hooks(0, []), []),
          Crowd({}, [], [], []),
          Demand(IDLE, IDLE, None, Hooks(0, [])),
          NOBODY,
          Books([], []))
  }

  function TimersStopped(m: OnDemand): OnDemand {
    m.(readyTimer := false, closeTimer := false)
  }

  /** The part of `run` after the loop. */
  function Terminate(s: State): State
    requires Basic(s)
  {
    var s1 := if s.link.stream.Some? then SetNotReady(s) else s;
    var supply :=
      if s.supply.source.StaticSource? then
        if !s.conf.sourceOnDemand || s.demand.source.state != Initial then HandlerStop(s.supply) else s.supply
      else if s.supply.source.Publisher? then
        s.supply.(closed := s.supply.closed + [s.supply.source.id])
      else s.supply;
    var d := s.demand.(source := TimersStopped(s.demand.source), publisher := TimersStopped(s.demand.publisher));
    var demand :=
      if d.undemandHook.Some? then d.(hooks := d.hooks.(called := d.hooks.called + [d.undemandHook.value])) else d;
    s1.(supply := supply, demand := demand, books := RefuseHeld(s.books, s.hold, Terminated))
  }
}
