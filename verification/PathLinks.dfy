/**
 * The stream of a path and its ready hooks (core/path.go, `setReady` and `setNotReady`), whatever the order in which
 * sources announce themselves.
 */
module PathLinks {
  import opened Common
  import opened PathConf
  import opened PathSpec
  import opened PathSafety
  import opened PathRuns

  /** A stream is asked for, the path stops being ready, or recording is switched on or off. */
  datatype Op = BecomeReady(record: bool, outcome: SetReadyOutcome) | BecomeNotReady | Record(on: bool)

  /** Only a path that has been ready can stop being so: otherwise there is no hook to call. */
  predicate Enabled(l: Link, op: Op) {
    op.BecomeNotReady? ==> l.notReadyHook.Some?
  }

  /** The path remembers the hook it has issued last, and that is the one of its stream. */
  predicate Sound(l: Link) {
    && (if l.hooks.issued == 0 then l.notReadyHook.None? else l.notReadyHook == Some(l.hooks.issued - 1))
    && (l.stream.Some? ==> l.stream == l.notReadyHook)
    && (forall h <- l.hooks.called :: h < l.hooks.issued)
  }

  function Do(l: Link, op: Op): (m: Link)
    requires Sound(l) && Enabled(l, op)
    ensures Sound(m)
  {
    match op
    case BecomeReady(record, outcome) => SetReady(l, record, outcome)
    case BecomeNotReady => Unlink(l)
    case Record(on) => l.(recording := on)
  }

  predicate Happens(l: Link, ops: seq<Op>)
    requires Sound(l)
    decreases |ops|
  {
    ops != [] ==> Enabled(l, ops[0]) && Happens(Do(l, ops[0]), ops[1..])
  }

  function After(l: Link, ops: seq<Op>): (m: Link)
    requires Sound(l) && Happens(l, ops)
    ensures Sound(m)
    decreases |ops|
  {
    if ops == [] then l else After(Do(l, ops[0]), ops[1..])
  }

  const UNLINKED := Link(None, false, None, Hooks(0, []), [])

  /** The hook issued last has not been called yet. */
  predicate Pending(l: Link) {
    l.hooks.issued > 0 && l.hooks.issued - 1 !in l.hooks.called
  }

  lemma PendingAfter(l: Link, op: Op)
    requires Sound(l) && Enabled(l, op)
    ensures Pending(Do(l, op)) <==>
            if op.BecomeNotReady? then false else if op.BecomeReady? && op.outcome.Created? then true else Pending(l)
  {
    var h, m := l.hooks.called, Do(l, op).hooks.called;
    assert op.BecomeNotReady? ==> m[|h|] == l.hooks.issued - 1;
  }

  /** A stream is created while a hook is pending: the new hook takes the place of the old one. */
  predicate Replaces(l: Link, op: Op) {
    op.BecomeReady? && op.outcome.Created? && Pending(l)
  }

  /** The path stops being ready although no hook is pending: one is called again. */
  predicate Repeats(l: Link, op: Op) {
    op.BecomeNotReady? && !Pending(l)
  }

  predicate NeverReplaces(l: Link, ops: seq<Op>)
    requires Sound(l) && Happens(l, ops)
    decreases |ops|
  {
    ops != [] ==> !Replaces(l, ops[0]) && NeverReplaces(Do(l, ops[0]), ops[1..])
  }

  predicate NeverRepeats(l: Link, ops: seq<Op>)
    requires Sound(l) && Happens(l, ops)
    decreases |ops|
  {
    ops != [] ==> !Repeats(l, ops[0]) && NeverRepeats(Do(l, ops[0]), ops[1..])
  }

  // That hooks are called

  predicate AllCalled(h: Hooks) {
    forall k: nat :: k < h.issued ==> k in h.called
  }

  /** Every hook but the last has been called. */
  predicate EarlierCalled(h: Hooks) {
    forall k: nat :: k + 1 < h.issued ==> k in h.called
  }

  lemma EarlierCalledAfter(l: Link, op: Op)
    requires Sound(l) && Enabled(l, op)
    ensures EarlierCalled(Do(l, op).hooks) <==> EarlierCalled(l.hooks) && !Replaces(l, op)
  {
    var h, m := l.hooks, Do(l, op).hooks;
    assert forall k <- h.called :: k in m.called;
    assert forall k <- m.called :: k in h.called || k + 1 == m.issued;
    if Replaces(l, op) {
      assert m.issued - 2 !in m.called;
    } else if !EarlierCalled(h) {
      var k: nat :| k + 1 < h.issued && k !in h.called;
      assert k + 1 < m.issued && k !in m.called;
    }
  }

  lemma {:induction false} EarlierCalledExactlyWhen(l: Link, ops: seq<Op>)
    requires Sound(l) && Happens(l, ops)
    ensures EarlierCalled(After(l, ops).hooks) <==> EarlierCalled(l.hooks) && NeverReplaces(l, ops)
    decreases |ops|
  {
    if ops != [] {
      EarlierCalledAfter(l, ops[0]);
      EarlierCalledExactlyWhen(Do(l, ops[0]), ops[1..]);
    }
  }

  lemma AllCalledMeans(l: Link)
    ensures AllCalled(l.hooks) <==> EarlierCalled(l.hooks) && !Pending(l)
  {
    if AllCalled(l.hooks) {
      assert l.hooks.issued > 0 ==> l.hooks.issued - 1 in l.hooks.called;
    }
  }

  /**
   * Over any run of a path, every ready hook that was issued has been called if and only if no stream was created while
   * a hook was pending and none is pending at the end.
   */
  lemma HooksCalledExactlyWhen(l: Link, ops: seq<Op>)
    requires Sound(l) && EarlierCalled(l.hooks) && Happens(l, ops)
    ensures AllCalled(After(l, ops).hooks) <==> NeverReplaces(l, ops) && !Pending(After(l, ops))
  {
    EarlierCalledExactlyWhen(l, ops);
    AllCalledMeans(After(l, ops));
  }

  // That hooks are called once, in their order

  /** Every hook has been called once, in order, except the last if it is pending. */
  predicate InTurn(l: Link) {
    l.hooks.called == Upto(if Pending(l) then l.hooks.issued - 1 else l.hooks.issued)
  }

  lemma InTurnMeans(l: Link)
    ensures l.hooks.called == Upto(l.hooks.issued) <==> InTurn(l) && !Pending(l)
  {
    if l.hooks.called == Upto(l.hooks.issued) && l.hooks.issued > 0 {
      assert l.hooks.called[l.hooks.issued - 1] == l.hooks.issued - 1;
    }
  }

  lemma CallInTurn(l: Link)
    requires Sound(l) && Enabled(l, BecomeNotReady)
    ensures InTurn(Unlink(l)) <==> InTurn(l) && Pending(l)
  {
    var c, m := l.hooks.called, Unlink(l);
    assert m.hooks.called[|c|] == l.hooks.issued - 1 && m.hooks.called[..|c|] == c;
    if InTurn(m) {
      assert |c| + 1 == l.hooks.issued;
      assert Upto(l.hooks.issued)[..|c|] == Upto(l.hooks.issued - 1);
    } else if Pending(l) {
      UptoNext(l.hooks.issued - 1);
    }
  }

  lemma IssueInTurn(l: Link, record: bool)
    requires Sound(l)
    ensures InTurn(SetReady(l, record, Created)) <==> InTurn(l) && !Pending(l)
  {
    assert Pending(SetReady(l, record, Created));
    InTurnMeans(l);
  }

  lemma InTurnAfter(l: Link, op: Op)
    requires Sound(l) && Enabled(l, op)
    ensures InTurn(Do(l, op)) <==> InTurn(l) && !Replaces(l, op) && !Repeats(l, op)
  {
    match op
    case BecomeNotReady => CallInTurn(l);
    case BecomeReady(record, _) => IssueInTurn(l, record);
    case Record(_) =>
  }

  /** Over any run, hooks are called once and in their order if and only if none was replaced and none called again. */
  lemma {:induction false} HooksInTurnExactlyWhen(l: Link, ops: seq<Op>)
    requires Sound(l) && Happens(l, ops)
    ensures InTurn(After(l, ops)) <==> InTurn(l) && NeverReplaces(l, ops) && NeverRepeats(l, ops)
    decreases |ops|
  {
    if ops != [] {
      InTurnAfter(l, ops[0]);
      HooksInTurnExactlyWhen(Do(l, ops[0]), ops[1..]);
    }
  }

  /** A notice for each hook issued and one for each hook called, in turn. */
  predicate NoticesInTurn(l: Link) {
    l.notices == Alternating(if Pending(l) then 2 * l.hooks.issued - 1 else 2 * l.hooks.issued)
  }

  lemma NoticesStayInTurn(l: Link, op: Op)
    requires Sound(l) && Enabled(l, op) && NoticesInTurn(l) && !Replaces(l, op) && !Repeats(l, op)
    ensures NoticesInTurn(Do(l, op))
  {
    PendingAfter(l, op);
    AlternatingNext(|l.notices|);
  }

  lemma {:induction false} RunKeepsNoticesInTurn(l: Link, ops: seq<Op>)
    requires Sound(l) && Happens(l, ops) && NoticesInTurn(l) && NeverReplaces(l, ops) && NeverRepeats(l, ops)
    ensures NoticesInTurn(After(l, ops))
    decreases |ops|
  {
    if ops != [] {
      NoticesStayInTurn(l, ops[0]);
      RunKeepsNoticesInTurn(Do(l, ops[0]), ops[1..]);
    }
  }

  /** In particular from the creation of a path on. */
  lemma FromCreation(ops: seq<Op>)
    requires Sound(UNLINKED) && Happens(UNLINKED, ops)
    ensures AllCalled(After(UNLINKED, ops).hooks) <==>
            NeverReplaces(UNLINKED, ops) && !Pending(After(UNLINKED, ops))
    ensures InTurn(After(UNLINKED, ops)) <==> NeverReplaces(UNLINKED, ops) && NeverRepeats(UNLINKED, ops)
  {
    HooksCalledExactlyWhen(UNLINKED, ops);
    HooksInTurnExactlyWhen(UNLINKED, ops);
  }

  // In the runs of a path

  /** The path stops being ready in this step. */
  predicate EndsStream(s: State, e: Event) {
    match e
    case StaticCloseTimer | StaticSetNotReady(_) => true
    case AddPublisher(_, _) =>
      s.conf.source.FromPublisher? && s.supply.source.Publisher? && s.conf.overridePublisher && s.link.stream.Some?
    case RemovePublisher(_, p) => s.supply.source == Publisher(p) && s.link.stream.Some?
    case StopPublisher(_, p) => s.supply.source == Publisher(p) && s.link.stream.Some?
    case _ => false
  }

  /** What a step of the loop does to the stream and its hooks. */
  function OpOf(s: State, e: Event): Op {
    if EndsStream(s, e) then BecomeNotReady
    else if e.StaticSetReady? || (e.StartPublisher? && s.supply.source == Publisher(e.publisher)) then
      BecomeReady(s.conf.record, e.outcome)
    else if e.ReloadConf? then
      Record(e.newConf.record && (s.link.recording || s.link.stream.Some?))
    else
      Record(s.link.recording)
  }

  ghost function OpsOf(s: State, events: seq<Event>): seq<Op>
    requires Inv(s) && Admissible(s, events)
    decreases |events|
  {
    if events == [] then [] else [OpOf(s, events[0])] + OpsOf(Next(s, events[0]), events[1..])
  }

  /** A hook is pending exactly as long as the side that provides the stream counts on it. */
  predicate HookFollowsSource(s: State) {
    && Sound(s.link)
    && (Pending(s.link) <==> if s.conf.HasStaticSource() then s.supply.sourceReady else s.link.stream.Some?)
    && (s.crowd.readers != {} || s.link.recording ==> Pending(s.link))
  }

  lemma ReadyStepIsOp(s: State, e: Event)
    requires CanStep(s, e) && (e.StaticSetReady? || e.StartPublisher?)
    ensures Step(s, e).link == if OpOf(s, e).BecomeReady? then SetReady(s.link, s.conf.record, e.outcome) else s.link
  {
  }

  lemma StepIsOp(s: State, e: Event)
    requires CanStep(s, e) && HookFollowsSource(s)
    ensures Enabled(s.link, OpOf(s, e)) && Step(s, e).link == Do(s.link, OpOf(s, e))
  {
    if e.StaticSetReady? || e.StartPublisher? { ReadyStepIsOp(s, e); }
  }

  /** In each step, what the source counts on changes as the hook does. */
  predicate SourceChanges(s: State, e: Event, t: State) {
    if s.conf.HasStaticSource() then
      t.supply.sourceReady ==
        (!EndsStream(s, e) && (s.supply.sourceReady || (e.StaticSetReady? && e.outcome.Created?)))
    else
      t.link.stream.Some? ==
        (!EndsStream(s, e) && (s.link.stream.Some? || (OpOf(s, e).BecomeReady? && e.outcome.Created?)))
  }

  lemma StepChangesSource(s: State, e: Event)
    requires CanStep(s, e)
    ensures SourceChanges(s, e, Step(s, e)) && (Step(s, e).conf.HasStaticSource() <==> s.conf.HasStaticSource())
  {
  }

  /** Readers come only to a stream and go with it, and so does recording. */
  lemma StepKeepsUse(s: State, e: Event)
    requires CanStep(s, e) && HookFollowsSource(s) && !OpOf(s, e).BecomeReady?
    ensures var t := Step(s, e);
      t.crowd.readers != {} || t.link.recording ==> OpOf(s, e).Record? && Pending(s.link)
  {
  }

  lemma FailedStepKeepsUse(s: State, e: Event)
    requires CanStep(s, e) && OpOf(s, e).BecomeReady? && !e.outcome.Created?
    ensures Step(s, e).crowd == s.crowd && Step(s, e).link.recording == s.link.recording
  {
  }

  lemma StepKeepsHookWithSource(s: State, e: Event)
    requires CanStep(s, e) && HookFollowsSource(s)
    ensures HookFollowsSource(Step(s, e))
  {
    StepIsOp(s, e);
    PendingAfter(s.link, OpOf(s, e));
    StepChangesSource(s, e);
    if !OpOf(s, e).BecomeReady? {
      StepKeepsUse(s, e);
    } else if !e.outcome.Created? {
      FailedStepKeepsUse(s, e);
    }
  }

  /** The source of the path announces itself again, and a new stream is created. */
  predicate ReplacesHook(s: State, e: Event) {
    e.StaticSetReady? && e.outcome.Created? && s.supply.sourceReady
  }

  ghost predicate NoHookReplaced(s: State, events: seq<Event>)
    requires Inv(s) && Admissible(s, events)
    decreases |events|
  {
    events != [] ==> !ReplacesHook(s, events[0]) && NoHookReplaced(Next(s, events[0]), events[1..])
  }

  lemma ReplacesExactlyWhen(s: State, e: Event)
    requires CanStep(s, e) && HookFollowsSource(s)
    ensures Replaces(s.link, OpOf(s, e)) <==> ReplacesHook(s, e)
    ensures !Repeats(s.link, OpOf(s, e))
  {
  }

  lemma {:induction false} RunIsOps(s: State, events: seq<Event>)
    requires Inv(s) && HookFollowsSource(s) && Admissible(s, events)
    ensures var ops := OpsOf(s, events);
      && Happens(s.link, ops) && After(s.link, ops) == RunFrom(s, events).link
      && (NeverReplaces(s.link, ops) <==> NoHookReplaced(s, events)) && NeverRepeats(s.link, ops)
    ensures HookFollowsSource(RunFrom(s, events))
    decreases |events|
  {
    if events != [] {
      var e, t := events[0], Next(s, events[0]);
      StepIsOp(s, e);
      StepKeepsHookWithSource(s, e);
      ReplacesExactlyWhen(s, e);
      RunIsOps(t, events[1..]);
      assert OpsOf(s, events)[1..] == OpsOf(t, events[1..]);
    }
  }

  /** Termination calls the hook of the present stream. */
  lemma TerminateCallsHook(s: State)
    requires Basic(s) && HookFollowsSource(s)
    ensures var l := Terminate(s).link;
      && (l.hooks.called == Upto(l.hooks.issued) <==> InTurn(s.link) && (Pending(s.link) ==> s.link.stream.Some?))
      && (AllCalled(l.hooks) <==> EarlierCalled(s.link.hooks) && (Pending(s.link) ==> s.link.stream.Some?))
  {
    AllCalledMeans(Terminate(s).link);
    InTurnMeans(Terminate(s).link);
    if s.link.stream.Some? {
      PendingAfter(s.link, BecomeNotReady);
      CallInTurn(s.link);
      EarlierCalledAfter(s.link, BecomeNotReady);
    }
  }

  /**
   * No second announcement has created a stream, and at the end no source counts on a stream that it has lost to an
   * announcement that failed.
   */
  ghost predicate NoHookLost(conf: Conf, events: seq<Event>)
    requires conf.Valid() && (StartInv(conf); Admissible(Start(conf), events))
  {
    StartInv(conf);
    var s := RunFrom(Start(conf), events);
    NoHookReplaced(Start(conf), events) && (s.supply.sourceReady ==> s.link.stream.Some?)
  }

  /**
   * Over any run of a path, from its creation to its termination at any moment: every ready hook is called, and then
   * exactly once and in order, if and only if that is so.
   */
  lemma RunCallsHooksExactlyWhen(conf: Conf, events: seq<Event>)
    requires conf.Valid() && (StartInv(conf); Admissible(Start(conf), events))
    ensures (StartInv(conf);
             var h := Terminate(RunFrom(Start(conf), events)).link.hooks;
             && (AllCalled(h) <==> NoHookLost(conf, events))
             && (h.called == Upto(h.issued) <==> NoHookLost(conf, events)))
  {
    StartInv(conf);
    RunIsOps(Start(conf), events);
    FromCreation(OpsOf(Start(conf), events));
    EarlierCalledExactlyWhen(UNLINKED, OpsOf(Start(conf), events));
    TerminateCallsHook(RunFrom(Start(conf), events));
  }

  /** What `run` leaves behind besides, at its best. */
  ghost predicate Clean(f: State) {
    && (forall x: ReaderId :: Times(x, f.crowd.admitted) == Times(x, f.crowd.left) + TimesKicked(x, f.crowd.kicked))
    && f.link.hooks.called == Upto(f.link.hooks.issued)
    && f.link.notices == Alternating(2 * f.link.hooks.issued)
    && !f.link.recording && f.crowd.readers == {}
  }

  lemma TerminateIsClean(s: State)
    requires Inv(s) && HookFollowsSource(s) && InTurn(s.link) && NoticesInTurn(s.link)
    requires Pending(s.link) ==> s.link.stream.Some?
    ensures Clean(Terminate(s))
  {
    var f := Terminate(s);
    TerminateSettles(s);
    TerminateCallsHook(s);
    if s.link.stream.Some? { NoticesStayInTurn(s.link, BecomeNotReady); }
    InTurnMeans(f.link);
    forall x: ReaderId
      ensures Times(x, f.crowd.admitted) == Times(x, f.crowd.left) + TimesKicked(x, f.crowd.kicked)
    {
      assert Accounted(f.crowd, x);
    }
  }

  /**
   * Under the same condition, and only then, it leaves everything clean: ready hooks called once in order, notices to
   * the manager alternating and ending with "not ready", every admission of a reader ended once, no reader and no
   * recording left.
   */
  lemma RunIsCleanExactlyWhen(conf: Conf, events: seq<Event>)
    requires conf.Valid() && (StartInv(conf); Admissible(Start(conf), events))
    ensures (StartInv(conf);
             Clean(Terminate(RunFrom(Start(conf), events))) <==> NoHookLost(conf, events))
  {
    StartInv(conf);
    RunCallsHooksExactlyWhen(conf, events);
    if NoHookLost(conf, events) {
      var ops := OpsOf(Start(conf), events);
      RunIsOps(Start(conf), events);
      HooksInTurnExactlyWhen(UNLINKED, ops);
      RunKeepsNoticesInTurn(UNLINKED, ops);
      TerminateIsClean(RunFrom(Start(conf), events));
    }
  }
}
