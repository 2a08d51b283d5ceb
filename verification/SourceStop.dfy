/**
 * The four goroutines behind a static source, and the waits between them: the path manager waits for a path
 * (path_manager.go `pa.wait()`), the path waits for its handler (static_source_handler.go `<-s.done`), the handler
 * waits for the running source (`<-runErr`), and requests travel the other way over unbuffered channels. Each program
 * counter below is a place where that goroutine blocks; an action is one communication or one branch of a select.
 */
module SourceStop {

  /** What the path does once a notice to the manager has been delivered or given up. */
  datatype After =
    | ThenReply    // pathReady inside doSourceStaticSetReady: answer the source
    | ThenRelease  // pathNotReady inside doSourceStaticSetNotReady: release the source
    | ThenStop     // pathNotReady inside doOnDemandStaticSourceCloseTimer: stop the handler
    | ThenExit     // closePath at the end of run
    | ThenLeave    // pathNotReady at the end of run

  datatype PathPc = AtSelect | Notifying(after: After) | Replying(ok: bool) | Stopping(final: bool) | Ended

  datatype ManagerPc = Serving | AwaitingPath | Resumed

  datatype HandlerPc = NotRunning | Selecting | ForwardingReady | ForwardingNotReady | Denying | AwaitingRun

  /** A call of `StaticSource.Run`, from its start to the delivery of its error. */
  datatype InstancePc =
    | Absent
    | Fresh
    | AskingReady
    | AwaitingReady
    | Live
    | AskingNotReady
    | AwaitingNotReady
    | Refused    // an announcement has been refused; the camera may make another one
    | Spent
    | Returning

  /** `pathCancelled`, `handlerCancelled` and `runCancelled` are three contexts, `running` is a field of the handler. */
  datatype State = State(
    manager: ManagerPc,
    path: PathPc, pathCancelled: bool,
    handler: HandlerPc, running: bool, handlerCancelled: bool, recreating: bool,
    instance: InstancePc, runCancelled: bool)

  datatype Action =
    // the manager, or the end of its context
    | ManagerRemoves
    | ManagerResumes
    | ContextEnds
    // the path
    | PathStarts
    | PathTimesOut
    | PathGivesUpSource
    | PathAcceptsReady(created: bool)
    | PathAcceptsNotReady
    | PathNotified(choice: bool)
    | PathReplies
    | PathSeesEnd
    | PathResumes
    // the handler
    | HandlerDenies
    | HandlerAnswersDenied
    | HandlerReleases
    | HandlerRecreates
    | HandlerSeesEnd
    | HandlerTakesError
    // the source
    | SourceAsks
    | SourceAskTaken
    | SourceAskRefused
    | SourceAsksAgain
    | SourceFails
    | SourceLeaves
    | SourceNotReadyTaken
    | SourceNotReadyRefused
    | SourceReturns

  predicate Enabled(s: State, a: Action) {
    match a
    case ManagerRemoves => s.manager == Serving
    case ManagerResumes => s.manager == AwaitingPath && s.path == Ended
    case ContextEnds => !s.pathCancelled
    case PathStarts => s.path == AtSelect && !s.running
    case PathTimesOut => s.path == AtSelect && s.running
    case PathGivesUpSource => s.path == AtSelect && s.running
    case PathAcceptsReady(_) => s.path == AtSelect && s.handler == ForwardingReady
    case PathAcceptsNotReady => s.path == AtSelect && s.handler == ForwardingNotReady
    case PathNotified(_) => s.path.Notifying? && (s.manager == Serving || s.pathCancelled)
    case PathReplies => s.path.Replying? && s.instance == AwaitingReady
    case PathSeesEnd => s.path == AtSelect && s.pathCancelled
    case PathResumes => s.path.Stopping? && s.handler == NotRunning
    case HandlerDenies => s.handler == ForwardingReady && (s.pathCancelled || s.handlerCancelled)
    case HandlerAnswersDenied => s.handler == Denying && s.instance == AwaitingReady
    case HandlerReleases => s.handler == ForwardingNotReady && (s.pathCancelled || s.handlerCancelled)
    case HandlerRecreates => s.handler == Selecting && s.recreating
    case HandlerSeesEnd => s.handler == Selecting && s.handlerCancelled
    case HandlerTakesError => (s.handler == Selecting || s.handler == AwaitingRun) && s.instance == Returning
    case SourceAsks => s.instance == Fresh
    case SourceAskTaken => s.instance == AskingReady && s.handler == Selecting
    case SourceAskRefused => s.instance == AskingReady && s.handlerCancelled
    case SourceAsksAgain => s.instance == Refused
    case SourceFails | SourceLeaves => s.instance == Live
    case SourceNotReadyTaken => s.instance == AskingNotReady && s.handler == Selecting
    case SourceNotReadyRefused => s.instance == AskingNotReady && s.handlerCancelled
    case SourceReturns => s.instance == Fresh || s.instance == Refused || s.instance == Spent
  }

  /** `stop()`: cancel the context of the handler, then wait for it. It panics when the handler is not running. */
  function CallStop(s: State, final: bool): State
    requires s.running
  {
    s.(running := false, handlerCancelled := true, path := Stopping(final))
  }

  function LeaveRun(s: State): State {
    if s.running then CallStop(s, true) else s.(path := Ended)
  }

  /** `start()`; it panics when the handler is running. */
  function CallStart(s: State): State
    requires !s.running
  {
    s.(running := true, handler := Selecting, handlerCancelled := false, recreating := false,
       instance := Fresh, runCancelled := false)
  }

  function AfterNotice(s: State, choice: bool): State
    requires s.path.Notifying? && (s.path.after == ThenStop ==> s.running)
  {
    match s.path.after
    case ThenReply => s.(path := Replying(true))
    case ThenRelease =>
      var s1 := s.(instance := Spent);
      if choice && s.running then CallStop(s1, false) else s1.(path := AtSelect)
    case ThenStop => CallStop(s, false)
    case ThenExit =>
      var s1 := s.(pathCancelled := true);
      if choice then s1.(path := Notifying(ThenLeave)) else LeaveRun(s1)
    case ThenLeave => LeaveRun(s)
  }

  function Apply(s: State, a: Action): State
    requires Inv(s) && Enabled(s, a)
  {
    match a
    case ManagerRemoves => s.(manager := AwaitingPath, pathCancelled := true)
    case ManagerResumes => s.(manager := Resumed)
    case ContextEnds => s.(pathCancelled := true)
    case PathStarts => CallStart(s)
    case PathTimesOut => CallStop(s, false)
    case PathGivesUpSource => s.(path := Notifying(ThenStop))
    case PathAcceptsReady(created) =>
      s.(handler := Selecting, path := if created then Notifying(ThenReply) else Replying(false))
    case PathAcceptsNotReady => s.(handler := Selecting, path := Notifying(ThenRelease))
    case PathNotified(choice) => AfterNotice(s, choice)
    case PathReplies => s.(path := AtSelect, instance := if s.path.ok then Live else Refused)
    case PathSeesEnd => s.(path := Notifying(ThenExit))
    case PathResumes => s.(path := if s.path.final then Ended else AtSelect)
    case HandlerDenies => s.(handler := Denying)
    case HandlerAnswersDenied => s.(handler := Selecting, instance := Refused)
    case HandlerReleases => s.(handler := Selecting, instance := Spent)
    case HandlerRecreates => s.(recreating := false, instance := Fresh, runCancelled := false)
    case HandlerSeesEnd =>
      if s.recreating then s.(handler := NotRunning, recreating := false)
      else s.(handler := AwaitingRun, runCancelled := true)
    case HandlerTakesError =>
      if s.handler == AwaitingRun then s.(handler := NotRunning, instance := Absent)
      else s.(instance := Absent, recreating := true)
    case SourceAsks => s.(instance := AskingReady)
    case SourceAskTaken => s.(instance := AwaitingReady, handler := ForwardingReady)
    case SourceAskRefused => s.(instance := Refused)
    case SourceAsksAgain => s.(instance := AskingReady)
    case SourceFails => s.(instance := AskingNotReady)
    case SourceNotReadyTaken => s.(instance := AwaitingNotReady, handler := ForwardingNotReady)
    case SourceNotReadyRefused => s.(instance := Spent)
    case SourceLeaves | SourceReturns => s.(instance := Returning)
  }

  // The invariant

  predicate PathAnswersReady(s: State) {
    s.path == Notifying(ThenReply) || s.path.Replying?
  }

  predicate PathReleases(s: State) {
    s.path == Notifying(ThenRelease)
  }

  /** The path has left its loop. */
  predicate IsEnding(p: PathPc) {
    p == Notifying(ThenExit) || p == Notifying(ThenLeave) || p == Stopping(true) || p == Ended
  }

  predicate Inv(s: State) {
    // the path knows whether its handler runs
    && (s.running ==> s.handler != NotRunning && !s.handlerCancelled)
    && (!s.running && s.handler != NotRunning ==> s.handlerCancelled && s.path.Stopping?)
    && (s.path.Stopping? || s.path == Ended ==> !s.running)
    && (PathAnswersReady(s) || PathReleases(s) || s.path == Notifying(ThenStop) ==> s.running)
    // a handler that is gone has left no source behind
    && (s.handler == NotRunning ==> s.instance == Absent && !s.recreating)
    && (s.handler != NotRunning ==> (s.instance == Absent <==> s.recreating))
    && (s.handler == AwaitingRun ==> s.runCancelled && s.handlerCancelled && !s.recreating)
    // a source that waits for an answer has its request in exactly one place
    && (s.instance == AwaitingReady <==> s.handler == ForwardingReady || s.handler == Denying || PathAnswersReady(s))
    && (s.instance == AwaitingNotReady <==> s.handler == ForwardingNotReady || PathReleases(s))
    && (PathAnswersReady(s) || PathReleases(s) ==> s.handler == Selecting)
    // the manager waits only for a path whose context it has cancelled, and a path ends for no other reason
    && (s.manager == AwaitingPath ==> s.pathCancelled)
    && (IsEnding(s.path) ==> s.pathCancelled)
  }

  function Start(startsNow: bool): State {
    var s := State(Serving, AtSelect, false, NotRunning, false, false, false, Absent, false);
    if startsNow then CallStart(s) else s
  }

  lemma StartInv(startsNow: bool)
    ensures Inv(Start(startsNow))
  {
  }

  /** The actions of the path and of the manager. */
  predicate OfPath(a: Action) {
    a.ManagerRemoves? || a.ManagerResumes? || a.ContextEnds? || a.PathStarts? || a.PathTimesOut? ||
    a.PathGivesUpSource? || a.PathAcceptsReady? || a.PathAcceptsNotReady? || a.PathNotified? || a.PathReplies? ||
    a.PathSeesEnd? || a.PathResumes?
  }

  lemma NoticeKeepsInv(s: State, choice: bool)
    requires Inv(s) && Enabled(s, PathNotified(choice))
    ensures Inv(AfterNotice(s, choice))
  {
  }

  lemma BranchKeepsInv(s: State, a: Action)
    requires Inv(s) && Enabled(s, a) && OfPath(a) && !a.PathNotified?
    ensures Inv(Apply(s, a))
  {
  }

  lemma PathKeepsInv(s: State, a: Action)
    requires Inv(s) && Enabled(s, a) && OfPath(a)
    ensures Inv(Apply(s, a))
  {
    if a.PathNotified? {
      NoticeKeepsInv(s, a.choice);
    } else {
      BranchKeepsInv(s, a);
    }
  }

  lemma SourceKeepsInv(s: State, a: Action)
    requires Inv(s) && Enabled(s, a) && !OfPath(a)
    ensures Inv(Apply(s, a))
  {
  }

  lemma ApplyKeepsInv(s: State, a: Action)
    requires Inv(s) && Enabled(s, a)
    ensures Inv(Apply(s, a))
  {
    if OfPath(a) {
      PathKeepsInv(s, a);
    } else {
      SourceKeepsInv(s, a);
    }
  }

  // Nobody waits for ever

  /** A handler has been told to stop, or a manager waits for the end of the path. */
  predicate Waiting(s: State) {
    s.path.Stopping? || (s.manager == AwaitingPath && s.path != Ended)
  }

  /**
   * The actions that happen by themselves once they are enabled: those of the path, of the handler and of the channels,
   * and those of a source whose context has been cancelled, because `Run` returns then. A source that has not been
   * cancelled may go on for ever, a request or a frame may never come, and a timer may not be due.
   */
  predicate Forced(s: State, a: Action) {
    match a
    case ManagerRemoves | ContextEnds => false
    case PathStarts | PathTimesOut | PathGivesUpSource => false
    case HandlerRecreates | SourceAsksAgain => false
    case SourceAsks | SourceFails | SourceLeaves | SourceReturns => s.runCancelled
    case _ => true
  }

  /**
   * The choices that lead away from the end: a select that takes another branch, a source that is created again, and
   * one that announces itself again after it has been refused.
   */
  predicate Detour(a: Action) {
    a.PathStarts? || a.PathTimesOut? || a.PathGivesUpSource? || a.PathAcceptsReady? || a.PathAcceptsNotReady? ||
    a.HandlerRecreates? || a.SourceAsksAgain?
  }

  /** The next action of the goroutine everybody else is waiting for. */
  function WayOut(s: State): Action
    requires Inv(s) && Waiting(s)
  {
    match s.path
    case AtSelect => PathSeesEnd
    case Notifying(_) => PathNotified(false)
    case Replying(_) => PathReplies
    case Ended => assert false; PathSeesEnd
    case Stopping(_) =>
      match s.handler
      case NotRunning => PathResumes
      case Selecting => HandlerSeesEnd
      case ForwardingReady => HandlerDenies
      case ForwardingNotReady => HandlerReleases
      case Denying => HandlerAnswersDenied
      case AwaitingRun =>
        if s.instance == Returning then HandlerTakesError
        else if s.instance == AskingReady then SourceAskRefused
        else if s.instance == AskingNotReady then SourceNotReadyRefused
        else if s.instance == Live then SourceFails
        else SourceReturns
  }

  /** Whoever waits, somebody can act, must act, and does not go astray by acting. */
  lemma NoDeadlock(s: State)
    requires Inv(s) && Waiting(s)
    ensures Enabled(s, WayOut(s)) && Forced(s, WayOut(s)) && !Detour(WayOut(s))
  {
  }

  function PathRank(p: PathPc): nat {
    match p
    case Ended => 0
    case Stopping(final) => if final then 1 else 5
    case Notifying(ThenLeave) => 2
    case Notifying(ThenExit) => 3
    case AtSelect => 4
    case Replying(_) => 6
    case Notifying(_) => 7
  }

  function HandlerRank(h: HandlerPc): nat {
    match h
    case NotRunning => 0
    case AwaitingRun => 1
    case Selecting => 2
    case Denying => 3
    case ForwardingReady | ForwardingNotReady => 4
  }

  function InstanceRank(i: InstancePc): nat {
    match i
    case Absent => 0
    case Returning => 1
    case Refused | Spent => 2
    case AwaitingNotReady => 3
    case AskingNotReady => 4
    case Live => 5
    case AwaitingReady => 6
    case AskingReady => 7
    case Fresh => 8
  }

  function Rank(s: State): nat {
    PathRank(s.path) + HandlerRank(s.handler) + 3 * InstanceRank(s.instance) +
    (match s.manager case Serving => 2 case AwaitingPath => 1 case Resumed => 0) + (if s.pathCancelled then 0 else 1)
  }

  const DETOUR_COST := 27

  lemma NoticeRankFalls(s: State, choice: bool)
    requires Inv(s) && Enabled(s, PathNotified(choice))
    ensures Rank(AfterNotice(s, choice)) < Rank(s)
  {
  }

  lemma PathRankFalls(s: State, a: Action)
    requires Inv(s) && Enabled(s, a) && OfPath(a) && !a.PathNotified?
    ensures Rank(Apply(s, a)) < Rank(s) + if Detour(a) then DETOUR_COST else 0
  {
  }

  lemma SourceRankFalls(s: State, a: Action)
    requires Inv(s) && Enabled(s, a) && !OfPath(a)
    ensures Rank(Apply(s, a)) < Rank(s) + if Detour(a) then DETOUR_COST else 0
  {
  }

  lemma RankFalls(s: State, a: Action)
    requires Inv(s) && Enabled(s, a)
    ensures Rank(Apply(s, a)) < Rank(s) + if Detour(a) then DETOUR_COST else 0
  {
    if a.PathNotified? {
      NoticeRankFalls(s, a.choice);
    } else if OfPath(a) {
      PathRankFalls(s, a);
    } else {
      SourceRankFalls(s, a);
    }
  }

  // Runs

  predicate Runs(s: State, actions: seq<Action>)
    requires Inv(s)
    decreases |actions|
  {
    actions != [] ==>
      && Enabled(s, actions[0])
      && (ApplyKeepsInv(s, actions[0]); Runs(Apply(s, actions[0]), actions[1..]))
  }

  function Exec(s: State, actions: seq<Action>): (t: State)
    requires Inv(s) && Runs(s, actions)
    ensures Inv(t)
    decreases |actions|
  {
    if actions == [] then s
    else ApplyKeepsInv(s, actions[0]); Exec(Apply(s, actions[0]), actions[1..])
  }

  function Detours(actions: seq<Action>): nat {
    if actions == [] then 0 else (if Detour(actions[0]) then 1 else 0) + Detours(actions[1..])
  }

  /** Whatever the scheduler does, a run is no longer than its start allows, plus a constant for each detour. */
  lemma {:induction false} RunsAreBounded(s: State, actions: seq<Action>)
    requires Inv(s) && Runs(s, actions)
    ensures |actions| + Rank(Exec(s, actions)) <= Rank(s) + DETOUR_COST * Detours(actions)
    decreases |actions|
  {
    if actions != [] {
      RankFalls(s, actions[0]);
      ApplyKeepsInv(s, actions[0]);
      RunsAreBounded(Apply(s, actions[0]), actions[1..]);
    }
  }

  /** The path is inside `stop()` from the first to the last state of the run. */
  predicate StopsThroughout(s: State, actions: seq<Action>)
    requires Inv(s) && Runs(s, actions)
    decreases |actions|
  {
    && s.path.Stopping?
    && (actions != [] ==> (ApplyKeepsInv(s, actions[0]); StopsThroughout(Apply(s, actions[0]), actions[1..])))
  }

  /** The handler prefers its timer to its context, or the camera has another frame before it is closed. */
  predicate Retry(a: Action) {
    a.HandlerRecreates? || a.SourceAsksAgain?
  }

  /** While the path is inside `stop()`, the only detours left are retries. */
  lemma {:induction false} OnlyRetriesDelayStop(s: State, actions: seq<Action>)
    requires Inv(s) && Runs(s, actions) && StopsThroughout(s, actions)
    ensures forall i :: 0 <= i < |actions| && Detour(actions[i]) ==> Retry(actions[i])
    decreases |actions|
  {
    if actions != [] {
      ApplyKeepsInv(s, actions[0]);
      OnlyRetriesDelayStop(Apply(s, actions[0]), actions[1..]);
      forall i | 0 <= i < |actions| && Detour(actions[i]) ensures Retry(actions[i]) {
        if i > 0 { assert actions[i] == actions[1..][i - 1]; }
      }
    }
  }

  function Retries(actions: seq<Action>): nat {
    if actions == [] then 0 else (if Retry(actions[0]) then 1 else 0) + Retries(actions[1..])
  }

  /** Inside `stop()` nothing can happen for longer than its start allows, plus a constant for each retry. */
  lemma StopIsBounded(s: State, actions: seq<Action>)
    requires Inv(s) && Runs(s, actions) && StopsThroughout(s, actions)
    ensures |actions| <= Rank(s) + DETOUR_COST * Retries(actions)
  {
    OnlyRetriesDelayStop(s, actions);
    DetoursAreRetries(actions);
    RunsAreBounded(s, actions);
  }

  lemma {:induction false} DetoursAreRetries(actions: seq<Action>)
    requires forall i :: 0 <= i < |actions| && Detour(actions[i]) ==> Retry(actions[i])
    ensures Detours(actions) == Retries(actions)
  {
    if actions != [] {
      assert forall i :: 0 <= i < |actions[1..]| ==> actions[1..][i] == actions[i + 1];
      DetoursAreRetries(actions[1..]);
    }
  }

  /**
   * From every state in which somebody waits, taking the way out at each turn ends all waiting, in at most `Rank(s)`
   * actions that all have to happen, and with no source left running.
   */
  lemma {:induction false} WaitingEnds(s: State) returns (actions: seq<Action>)
    requires Inv(s) && Waiting(s)
    ensures Runs(s, actions) && |actions| <= Rank(s) && Detours(actions) == 0
    ensures !Waiting(Exec(s, actions))
    ensures Exec(s, actions).handler == NotRunning && Exec(s, actions).instance == Absent
    decreases Rank(s)
  {
    var a := WayOut(s);
    NoDeadlock(s);
    RankFalls(s, a);
    ApplyKeepsInv(s, a);
    var t := Apply(s, a);
    if Waiting(t) {
      var rest := WaitingEnds(t);
      actions := [a] + rest;
      assert actions[1..] == rest;
    } else {
      actions := [a];
      assert actions[1..] == [];
    }
  }
}
