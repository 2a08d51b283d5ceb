/**
 * What a path may expect of the source behind its handler: that it withdraws only what it announced, and exactly when
 * it can announce itself a second time. It is derived from the communication of the goroutines.
 */
module SourceCalls {
  import opened SourceStop

  /**
   * `ready` is what the path knows: it has accepted an announcement and no withdrawal, and has not stopped the handler
   * since. `stale` tells that its source has gone without a word, and that no announcement has been accepted since.
   */
  datatype View = View(state: State, ready: bool, stale: bool)

  predicate StopsHandler(s: State, a: Action)
    requires Inv(s) && Enabled(s, a)
  {
    s.running && !Apply(s, a).running
  }

  function Look(v: View, a: Action): View
    requires Inv(v.state) && Enabled(v.state, a)
  {
    var t := Apply(v.state, a);
    if StopsHandler(v.state, a) then View(t, false, false)
    else
      match a
      case PathAcceptsReady(created) => View(t, v.ready || created, v.stale && !created)
      case PathAcceptsNotReady => View(t, false, v.stale)
      case HandlerReleases | SourceLeaves => View(t, v.ready, v.state.running)
      case _ => View(t, v.ready, v.stale)
  }

  /** What the side of the source knows: an announcement has been accepted, a withdrawal has not. */
  predicate Announced(s: State) {
    || s.instance == Live || s.instance == AskingNotReady
    || (s.instance == AwaitingNotReady && !PathReleases(s))
    || s.path == Notifying(ThenReply) || s.path == Replying(true)
  }

  predicate Agree(v: View) {
    && Inv(v.state)
    && (!v.state.running ==> !v.ready && !v.stale)
    && (v.state.running ==> (v.ready <==> Announced(v.state) || v.stale))
    && (v.stale ==> !Announced(v.state))
  }

  function Begin(startsNow: bool): View {
    View(Start(startsNow), false, false)
  }

  lemma BeginAgrees(startsNow: bool)
    ensures Agree(Begin(startsNow))
  {
  }

  lemma AnswerKeepsAgreement(v: View, choice: bool)
    requires Agree(v) && Enabled(v.state, PathNotified(choice))
    requires v.state.path.after == ThenReply || v.state.path.after == ThenRelease
    ensures Agree(Look(v, PathNotified(choice)))
  {
    PathKeepsInv(v.state, PathNotified(choice));
  }

  lemma NoticeKeepsAgreement(v: View, choice: bool)
    requires Agree(v) && Enabled(v.state, PathNotified(choice))
    requires v.state.path.after != ThenReply && v.state.path.after != ThenRelease
    ensures Agree(Look(v, PathNotified(choice)))
  {
    PathKeepsInv(v.state, PathNotified(choice));
  }

  lemma PathKeepsAgreement(v: View, a: Action)
    requires Agree(v) && Enabled(v.state, a) && OfPath(a) && !a.PathNotified?
    ensures Agree(Look(v, a))
  {
    ApplyKeepsInv(v.state, a);
  }

  lemma SourceKeepsAgreement(v: View, a: Action)
    requires Agree(v) && Enabled(v.state, a) && !OfPath(a)
    ensures Agree(Look(v, a))
  {
    ApplyKeepsInv(v.state, a);
  }

  lemma LookKeepsAgreement(v: View, a: Action)
    requires Agree(v) && Enabled(v.state, a)
    ensures Agree(Look(v, a))
  {
    if a.PathNotified? && (v.state.path.after == ThenReply || v.state.path.after == ThenRelease) {
      AnswerKeepsAgreement(v, a.choice);
    } else if a.PathNotified? {
      NoticeKeepsAgreement(v, a.choice);
    } else if OfPath(a) {
      PathKeepsAgreement(v, a);
    } else {
      SourceKeepsAgreement(v, a);
    }
  }

  // Runs

  predicate Looks(v: View, actions: seq<Action>)
    requires Agree(v)
    decreases |actions|, 0
  {
    actions != [] ==>
      && Looks(v, actions[..|actions| - 1])
      && Enabled(Seen(v, actions[..|actions| - 1]).state, actions[|actions| - 1])
  }

  function Seen(v: View, actions: seq<Action>): (w: View)
    requires Agree(v) && Looks(v, actions)
    ensures Agree(w)
    decreases |actions|, 1
  {
    if actions == [] then v
    else
      var before, a := Seen(v, actions[..|actions| - 1]), actions[|actions| - 1];
      LookKeepsAgreement(before, a);
      Look(before, a)
  }

  /** Whether the handler runs, at the start and after each action. */
  function Running(v: View, actions: seq<Action>): (running: seq<bool>)
    requires Agree(v) && Looks(v, actions)
    ensures |running| == |actions| + 1 && running[|actions|] == Seen(v, actions).state.running
  {
    if actions == [] then [v.state.running]
    else Running(v, actions[..|actions| - 1]) + [Seen(v, actions).state.running]
  }

  /** A source that was announced goes, and the path is not told: a withdrawal is given up, or is never made. */
  predicate GoesUntold(a: Action) {
    a.HandlerReleases? || a.SourceLeaves?
  }

  /**
   * At position `i` the source goes without a word while the handler has not been told to stop; from then on it is not
   * stopped, and no announcement that creates a stream is accepted.
   */
  predicate LostAt(running: seq<bool>, actions: seq<Action>, i: nat)
    requires |running| == |actions| + 1
  {
    && i < |actions| && GoesUntold(actions[i])
    && (forall k :: i <= k <= |actions| ==> running[k])
    && (forall j :: i < j < |actions| ==> actions[j] != PathAcceptsReady(true))
  }

  ghost predicate Lost(running: seq<bool>, actions: seq<Action>)
    requires |running| == |actions| + 1
  {
    exists i: nat :: LostAt(running, actions, i)
  }

  lemma LostOneMore(running: seq<bool>, actions: seq<Action>, now: bool, a: Action)
    requires |running| == |actions| + 1
    ensures Lost(running + [now], actions + [a]) <==>
            && now && a != PathAcceptsReady(true)
            && (Lost(running, actions) || (GoesUntold(a) && running[|actions|]))
  {
    var r, l, n := running + [now], actions + [a], |actions|;
    assert r[n + 1] == now && forall k :: 0 <= k <= n ==> r[k] == running[k];
    assert l[n] == a && forall j :: 0 <= j < n ==> l[j] == actions[j];
    forall i: nat | i < n
      ensures LostAt(r, l, i) <==> LostAt(running, actions, i) && now && a != PathAcceptsReady(true)
    {
      LostEarlier(running, actions, now, a, i);
    }
    if Lost(running, actions) {
      var i: nat :| LostAt(running, actions, i);
      assert i < n;
    }
    assert LostAt(r, l, n) <==> GoesUntold(a) && running[n] && now;
  }

  lemma LostEarlier(running: seq<bool>, actions: seq<Action>, now: bool, a: Action, i: nat)
    requires |running| == |actions| + 1 && i < |actions|
    ensures LostAt(running + [now], actions + [a], i) <==>
            LostAt(running, actions, i) && now && a != PathAcceptsReady(true)
  {
    var r, l, n := running + [now], actions + [a], |actions|;
    assert r[n + 1] == now && l[n] == a;
    if LostAt(r, l, i) {
      assert forall k :: i <= k <= n ==> running[k] == r[k];
      assert forall j :: i <= j < n ==> actions[j] == l[j];
    }
  }

  lemma RunningOneMore(v: View, actions: seq<Action>)
    requires Agree(v) && actions != [] && Looks(v, actions)
    ensures var n := |actions| - 1;
      var w := Seen(v, actions[..n]);
      && Enabled(w.state, actions[n]) && Seen(v, actions) == Look(w, actions[n])
      && Running(v, actions) == Running(v, actions[..n]) + [Look(w, actions[n]).state.running]
  {
  }

  lemma FlagOneMore(w: View, running: seq<bool>, actions: seq<Action>)
    requires |running| == |actions| + 1 && actions != []
    requires var n := |actions| - 1;
      && Agree(w) && Enabled(w.state, actions[n])
      && running[n] == w.state.running && running[n + 1] == Look(w, actions[n]).state.running
      && (w.stale <==> Lost(running[..n + 1], actions[..n]))
    ensures Look(w, actions[|actions| - 1]).stale <==> Lost(running, actions)
  {
    var n := |actions| - 1;
    LastLook(w, actions[n]);
    LostOneMore(running[..n + 1], actions[..n], running[n + 1], actions[n]);
    assert running == running[..n + 1] + [running[n + 1]] && actions == actions[..n] + [actions[n]];
  }

  lemma NothingLost(running: seq<bool>)
    requires |running| == 1
    ensures !Lost(running, [])
  {
  }

  /** The flag is what it stands for, over every run. */
  lemma {:induction false} StaleExactlyWhen(v: View, actions: seq<Action>)
    requires Agree(v) && !v.stale && Looks(v, actions)
    ensures Seen(v, actions).stale <==> Lost(Running(v, actions), actions)
    decreases |actions|
  {
    if actions == [] {
      NothingLost(Running(v, actions));
    } else {
      var n := |actions| - 1;
      StaleExactlyWhen(v, actions[..n]);
      RunningOneMore(v, actions);
      assert Running(v, actions)[..n + 1] == Running(v, actions[..n]);
      FlagOneMore(Seen(v, actions[..n]), Running(v, actions), actions);
    }
  }

  /** How one action changes the flag. */
  lemma LastLook(v: View, a: Action)
    requires Agree(v) && Enabled(v.state, a)
    ensures Look(v, a).stale <==>
            && Look(v, a).state.running && a != PathAcceptsReady(true)
            && (v.stale || (GoesUntold(a) && v.state.running))
  {
  }

  lemma AcceptableCalls(v: View, created: bool)
    requires Agree(v)
    ensures Enabled(v.state, PathAcceptsReady(created)) ==> v.state.running && (v.ready <==> v.stale)
    ensures Enabled(v.state, PathAcceptsNotReady) ==> v.state.running && v.ready
  {
  }

  /**
   * In every reachable state: an announcement that the path can accept comes from a running source, and the path knows
   * the source as ready already if and only if its source has gone without a word since; a withdrawal that it can
   * accept comes from a running source that it knows as ready.
   */
  lemma CallsAreInOrderExactlyWhen(startsNow: bool, actions: seq<Action>, created: bool)
    requires (BeginAgrees(startsNow); Looks(Begin(startsNow), actions))
    ensures (BeginAgrees(startsNow);
             var v := Seen(Begin(startsNow), actions);
             && (Enabled(v.state, PathAcceptsReady(created)) ==>
                   v.state.running && (v.ready <==> Lost(Running(Begin(startsNow), actions), actions)))
             && (Enabled(v.state, PathAcceptsNotReady) ==> v.state.running && v.ready))
  {
    BeginAgrees(startsNow);
    StaleExactlyWhen(Begin(startsNow), actions);
    AcceptableCalls(Seen(Begin(startsNow), actions), created);
  }

  /** A source that always withdraws can be lost only to a path whose context has been cancelled. */
  lemma {:induction false} WithdrawingSourceIsLostToCancelled(v: View, actions: seq<Action>)
    requires Agree(v) && !v.stale && Looks(v, actions) && SourceLeaves !in actions
    ensures Seen(v, actions).stale ==> Seen(v, actions).state.pathCancelled
    decreases |actions|
  {
    if actions != [] {
      var n := |actions| - 1;
      assert SourceLeaves !in actions[..n] && actions[n] in actions;
      WithdrawingSourceIsLostToCancelled(v, actions[..n]);
      RunningOneMore(v, actions);
      LastLook(Seen(v, actions[..n]), actions[n]);
      ContextStaysCancelled(Seen(v, actions[..n]), actions[n]);
    }
  }

  lemma ContextStaysCancelled(v: View, a: Action)
    requires Agree(v) && Enabled(v.state, a)
    ensures v.state.pathCancelled ==> Apply(v.state, a).pathCancelled
    ensures a.HandlerReleases? && v.state.running ==> v.state.pathCancelled
  {
  }

  // A second announcement

  ghost predicate Reaches(v: View, w: View) {
    && Agree(v)
    && exists actions: seq<Action> :: Looks(v, actions) && Seen(v, actions) == w
  }

  lemma ReachesOneMore(v: View, w: View, a: Action, x: View)
    requires Reaches(v, w) && Agree(w) && Enabled(w.state, a) && x == Look(w, a)
    ensures Reaches(v, x) && Agree(x)
  {
    var actions: seq<Action> :| Looks(v, actions) && Seen(v, actions) == w;
    assert (actions + [a])[..|actions|] == actions;
    assert Looks(v, actions + [a]) && Seen(v, actions + [a]) == x;
  }

  /** The path, whose context may have been cancelled, looks for its next event; it has a stream from the source. */
  function Behind(cancelled: bool, handler: HandlerPc, instance: InstancePc): State {
    State(Serving, AtSelect, cancelled, handler, true, false, false, instance, false)
  }

  lemma Announces(v: View)
    requires v == View(Behind(false, Selecting, Fresh), false, false) && Agree(v)
    ensures Reaches(v, View(Behind(false, Selecting, Live), true, false))
  {
    assert Looks(v, []) && Seen(v, []) == v;
    var v1 := View(Behind(false, Selecting, AskingReady), false, false);
    ReachesOneMore(v, v, SourceAsks, v1);
    var v2 := View(Behind(false, ForwardingReady, AwaitingReady), false, false);
    ReachesOneMore(v, v1, SourceAskTaken, v2);
    AcceptsAndReplies(v, v2);
  }

  lemma AcceptsAndReplies(v: View, w: View)
    requires Reaches(v, w) && Agree(w) && w == View(Behind(false, ForwardingReady, AwaitingReady), false, false)
    ensures Reaches(v, View(Behind(false, Selecting, Live), true, false))
  {
    var asked := Behind(false, Selecting, AwaitingReady);
    var v3 := View(asked.(path := Notifying(ThenReply)), true, false);
    ReachesOneMore(v, w, PathAcceptsReady(true), v3);
    var v4 := View(asked.(path := Replying(true)), true, false);
    ReachesOneMore(v, v3, PathNotified(false), v4);
    ReachesOneMore(v, v4, PathReplies, View(Behind(false, Selecting, Live), true, false));
  }

  lemma WithdrawsInVain(v: View)
    requires Reaches(v, View(Behind(false, Selecting, Live), true, false))
    ensures Reaches(v, View(Behind(true, Selecting, Returning), true, true))
  {
    var v0 := View(Behind(false, Selecting, Live), true, false);
    var v1 := View(Behind(false, Selecting, AskingNotReady), true, false);
    ReachesOneMore(v, v0, SourceFails, v1);
    var v2 := View(Behind(false, ForwardingNotReady, AwaitingNotReady), true, false);
    ReachesOneMore(v, v1, SourceNotReadyTaken, v2);
    var v3 := View(Behind(true, ForwardingNotReady, AwaitingNotReady), true, false);
    ReachesOneMore(v, v2, ContextEnds, v3);
    var v4 := View(Behind(true, Selecting, Spent), true, true);
    ReachesOneMore(v, v3, HandlerReleases, v4);
    ReachesOneMore(v, v4, SourceReturns, View(Behind(true, Selecting, Returning), true, true));
  }

  lemma ComesBack(v: View, cancelled: bool)
    requires Reaches(v, View(Behind(cancelled, Selecting, Returning), true, true))
    ensures Reaches(v, View(Behind(cancelled, ForwardingReady, AwaitingReady), true, true))
  {
    var v1 := View(Behind(cancelled, Selecting, Returning), true, true);
    var v2 := View(Behind(cancelled, Selecting, Absent).(recreating := true), true, true);
    ReachesOneMore(v, v1, HandlerTakesError, v2);
    ReachesOneMore(v, v2, HandlerRecreates, View(Behind(cancelled, Selecting, Fresh), true, true));
    AsksOnceMore(v, cancelled);
  }

  lemma AsksOnceMore(v: View, cancelled: bool)
    requires Reaches(v, View(Behind(cancelled, Selecting, Fresh), true, true))
    ensures Reaches(v, View(Behind(cancelled, ForwardingReady, AwaitingReady), true, true))
  {
    var v1 := View(Behind(cancelled, Selecting, Fresh), true, true);
    var v2 := View(Behind(cancelled, Selecting, AskingReady), true, true);
    ReachesOneMore(v, v1, SourceAsks, v2);
    ReachesOneMore(v, v2, SourceAskTaken, View(Behind(cancelled, ForwardingReady, AwaitingReady), true, true));
  }

  /**
   * When a withdrawal is given up, the order is lost: the source is created again, and if all this happens before the
   * path looks at its context, the path can accept a second announcement while it still has the first stream.
   */
  lemma CanAnnounceTwice()
    ensures
      var twice := View(Behind(true, ForwardingReady, AwaitingReady), true, true);
      && Reaches(Begin(true), twice)
      && twice.ready && Enabled(twice.state, PathAcceptsReady(true))
  {
    BeginAgrees(true);
    var v := Begin(true);
    Announces(v);
    WithdrawsInVain(v);
    ComesBack(v, true);
  }

  /** The source of an SRT path never withdraws: it loses its connection, and a new one announces itself again. */
  lemma AnnouncesAgainAfterLostConnection()
    ensures
      var twice := View(Behind(false, ForwardingReady, AwaitingReady), true, true);
      && Reaches(Begin(true), twice)
      && twice.ready && Enabled(twice.state, PathAcceptsReady(true))
  {
    BeginAgrees(true);
    var v := Begin(true);
    Announces(v);
    ReachesOneMore(v, View(Behind(false, Selecting, Live), true, false), SourceLeaves,
                   View(Behind(false, Selecting, Returning), true, true));
    ComesBack(v, false);
  }
}
