/**
 * Reloads on their way from a path through the handler to its running source (core/static_source_handler.go). The path
 * hands them to the handler, and the handler to the source, by goroutines that give up when a context ends; a handler
 * that does not run is told nothing.
 */
module HandlerReloads {
  import opened Common
  import opened PathConf

  datatype Stage = ToHandler | ToSource | Over

  /** A reload on its way; the context of one that is not `live` has ended, so that it may be given up. */
  datatype Letter = Letter(conf: Conf, stage: Stage, live: bool)

  /** What path, handler and source have. A handler that runs without a source waits to create it again. */
  datatype State = State(path: Conf, handler: Conf, running: bool, source: Option<Conf>, letters: seq<Letter>)

  predicate Open(s: State, i: nat) {
    i < |s.letters| && s.letters[i].stage != Over
  }

  predicate Live(s: State, i: nat) {
    Open(s, i) && s.letters[i].live
  }

  ghost predicate Valid(s: State) {
    && (s.source.Some? ==> s.running)
    && forall i: nat :: Live(s, i) ==> s.running && (s.letters[i].stage == ToSource ==> s.source.Some?)
  }

  datatype Action =
    // from outside
    | Reload(conf: Conf)
    | StartHandler
    | StopHandler
    | SourceFails
    // on the way
    | Arrive(i: nat)
    | Deliver(i: nat)
    | GiveUp(i: nat)
    | Recreate

  predicate OnTheWay(a: Action) {
    a.Arrive? || a.Deliver? || a.GiveUp? || a.Recreate?
  }

  predicate Enabled(s: State, a: Action) {
    match a
    case Reload(conf) => CanBeUpdated(s.path, conf)
    case StartHandler => !s.running
    case StopHandler => s.running
    case SourceFails => s.source.Some?
    case Arrive(i) => Open(s, i) && s.letters[i].stage == ToHandler && s.running
    case Deliver(i) => Open(s, i) && s.letters[i].stage == ToSource && s.source.Some?
    case GiveUp(i) => Open(s, i) && !s.letters[i].live
    case Recreate => s.running && s.source.None?
  }

  /** The context of the handler ends, and the channel to the source is forgotten. */
  function HandlerEnded(letters: seq<Letter>): seq<Letter> {
    seq(|letters|, i requires 0 <= i < |letters| =>
      if letters[i].stage == ToHandler then letters[i].(live := false) else letters[i].(stage := Over))
  }

  /** The context of the source ends; its channel serves the next one too. */
  function SourceEnded(letters: seq<Letter>): seq<Letter> {
    seq(|letters|, i requires 0 <= i < |letters| =>
      if letters[i].stage == ToSource then letters[i].(live := false) else letters[i])
  }

  function Set(s: State, i: nat, stage: Stage): State
    requires i < |s.letters|
  {
    s.(letters := s.letters[i := Letter(s.letters[i].conf, stage, true)])
  }

  function Apply(s: State, a: Action): (t: State)
    requires Valid(s) && Enabled(s, a)
    ensures Valid(t)
  {
    match a
    case Reload(conf) =>
      s.(path := conf, letters := if s.running then s.letters + [Letter(conf, ToHandler, true)] else s.letters)
    case StartHandler => s.(running := true, source := Some(s.handler))
    case StopHandler => s.(running := false, source := None, letters := HandlerEnded(s.letters))
    case SourceFails => s.(source := None, letters := SourceEnded(s.letters))
    case Arrive(i) => Set(s, i, if s.source.Some? then ToSource else Over).(handler := s.letters[i].conf)
    case Deliver(i) => Set(s, i, Over).(source := Some(s.letters[i].conf))
    case GiveUp(i) => Set(s, i, Over)
    case Recreate => s.(source := Some(s.handler))
  }

  predicate Runs(s: State, actions: seq<Action>)
    requires Valid(s)
    decreases |actions|
  {
    actions != [] ==> Enabled(s, actions[0]) && Runs(Apply(s, actions[0]), actions[1..])
  }

  function Exec(s: State, actions: seq<Action>): (t: State)
    requires Valid(s) && Runs(s, actions)
    ensures Valid(t)
    decreases |actions|
  {
    if actions == [] then s else Exec(Apply(s, actions[0]), actions[1..])
  }

  /** A path just created, before its handler is started. */
  function Begin(conf: Conf): State {
    State(conf, conf, false, None, [])
  }

  // Where it ends

  /** Everything that is on its way arrives or is given up, a source is there, and nothing else happens. */
  ghost predicate Settles(s: State, actions: seq<Action>)
    requires Valid(s)
  {
    && (forall a <- actions :: OnTheWay(a))
    && Runs(s, actions)
    && Exec(s, actions).source.Some?
    && forall i: nat :: !Open(Exec(s, actions), i)
  }

  /** However that goes, the source ends up with this configuration. */
  ghost predicate EndsWith(s: State, conf: Conf)
    requires Valid(s)
  {
    forall actions: seq<Action> :: Settles(s, actions) ==> Exec(s, actions).source == Some(conf)
  }

  ghost predicate AllOpenCarry(s: State, conf: Conf) {
    forall i: nat :: Open(s, i) ==> s.letters[i].conf == conf
  }

  ghost predicate SomeLive(s: State) {
    exists i: nat :: Live(s, i)
  }

  /** What the source has, or will be created with if nothing more arrives. */
  function Base(s: State): Conf {
    if s.source.Some? then s.source.value else s.handler
  }

  /** All that may still arrive is `conf`, and if nothing is certain to arrive, the source has it already. */
  ghost predicate BoundFor(s: State, conf: Conf) {
    AllOpenCarry(s, conf) && (SomeLive(s) || Base(s) == conf)
  }

  lemma StaysBound(s: State, a: Action, conf: Conf)
    requires Valid(s) && Enabled(s, a) && OnTheWay(a) && BoundFor(s, conf)
    ensures BoundFor(Apply(s, a), conf)
  {
    var t := Apply(s, a);
    assert forall i: nat :: Open(t, i) ==> Open(s, i);
    if SomeLive(s) && Base(t) != conf {
      var i: nat :| Live(s, i);
      assert Live(t, i);
    }
  }

  lemma {:induction false} BoundEndsWith(s: State, actions: seq<Action>, conf: Conf)
    requires Valid(s) && BoundFor(s, conf) && Settles(s, actions)
    ensures Exec(s, actions).source == Some(conf)
    decreases |actions|
  {
    if actions != [] {
      StaysBound(s, actions[0], conf);
      BoundEndsWith(Apply(s, actions[0]), actions[1..], conf);
    }
  }

  // Whatever is on its way can come last

  lemma SettlesOneMore(s: State, a: Action, rest: seq<Action>)
    requires Valid(s) && Enabled(s, a) && OnTheWay(a) && Settles(Apply(s, a), rest)
    ensures Settles(s, [a] + rest) && Exec(s, [a] + rest) == Exec(Apply(s, a), rest)
  {
    assert ([a] + rest)[1..] == rest;
  }

  /** The letter `i`, and nothing before position `k`, is still open. */
  predicate OnlyOpen(s: State, i: nat, k: nat) {
    forall j: nat :: j < k && Open(s, j) ==> j == i
  }

  lemma {:induction false} CanComeLast(s: State, i: nat, k: nat) returns (actions: seq<Action>)
    requires Valid(s) && s.source.Some? && Open(s, i) && k <= |s.letters| && OnlyOpen(s, i, k)
    ensures Settles(s, actions) && Exec(s, actions).source == Some(s.letters[i].conf)
    decreases |s.letters| - k, if k < |s.letters| && s.letters[k].stage == ToHandler then 1 else 0
  {
    if k == |s.letters| {
      actions := ComesNow(s, i);
    } else if k == i || !Open(s, k) {
      actions := CanComeLast(s, i, k + 1);
    } else {
      var a := if s.letters[k].stage == ToHandler then Arrive(k) else Deliver(k);
      var t := Apply(s, a);
      assert forall j: nat :: j < k && Open(t, j) ==> Open(s, j);
      var rest := CanComeLast(t, i, if a.Arrive? then k else k + 1);
      SettlesOneMore(s, a, rest);
      actions := [a] + rest;
    }
  }

  lemma ComesNow(s: State, i: nat) returns (actions: seq<Action>)
    requires Valid(s) && s.source.Some? && Open(s, i) && OnlyOpen(s, i, |s.letters|)
    ensures Settles(s, actions) && Exec(s, actions).source == Some(s.letters[i].conf)
  {
    if s.letters[i].stage == ToHandler {
      var t := Apply(s, Arrive(i));
      assert forall j: nat :: Open(t, j) ==> Open(s, j);
      var rest := IsDelivered(t, i);
      SettlesOneMore(s, Arrive(i), rest);
      actions := [Arrive(i)] + rest;
    } else {
      actions := IsDelivered(s, i);
    }
  }

  lemma IsDelivered(s: State, i: nat) returns (actions: seq<Action>)
    requires Valid(s) && Enabled(s, Deliver(i)) && OnlyOpen(s, i, |s.letters|)
    ensures Settles(s, actions) && Exec(s, actions).source == Some(s.letters[i].conf)
  {
    var t := Apply(s, Deliver(i));
    assert forall j: nat :: Open(t, j) ==> Open(s, j) && j != i;
    assert Settles(t, []);
    SettlesOneMore(s, Deliver(i), []);
    actions := [Deliver(i)] + [];
  }

  /** If nothing is certain to arrive, everything can be given up. */
  lemma {:induction false} CanBeGivenUp(s: State, k: nat) returns (actions: seq<Action>)
    requires Valid(s) && s.source.Some? && !SomeLive(s) && k <= |s.letters|
    requires forall j: nat :: j < k ==> !Open(s, j)
    ensures Settles(s, actions) && Exec(s, actions).source == s.source
    decreases |s.letters| - k
  {
    if k == |s.letters| {
      actions := [];
    } else if !Open(s, k) {
      actions := CanBeGivenUp(s, k + 1);
    } else {
      assert !Live(s, k);
      var t := Apply(s, GiveUp(k));
      assert forall j: nat :: Open(t, j) ==> Open(s, j);
      assert forall j: nat :: Live(t, j) ==> Live(s, j);
      var rest := CanBeGivenUp(t, k + 1);
      SettlesOneMore(s, GiveUp(k), rest);
      actions := [GiveUp(k)] + rest;
    }
  }

  lemma UnboundCanEndOtherwise(s: State, conf: Conf) returns (actions: seq<Action>)
    requires Valid(s) && s.source.Some? && !BoundFor(s, conf)
    ensures Settles(s, actions) && Exec(s, actions).source != Some(conf)
  {
    if AllOpenCarry(s, conf) {
      actions := CanBeGivenUp(s, 0);
    } else {
      var i: nat :| Open(s, i) && s.letters[i].conf != conf;
      actions := CanComeLast(s, i, 0);
    }
  }

  /**
   * For a handler that runs: the source is certain to end up with a configuration, if nothing else happens, exactly
   * when every reload that is still on its way carries it and, unless one of them is certain to arrive, the source has
   * it already or will be created with it.
   */
  lemma EndsWithExactlyWhen(s: State, conf: Conf)
    requires Valid(s) && s.running
    ensures EndsWith(s, conf) <==> BoundFor(s, conf)
  {
    if BoundFor(s, conf) {
      forall actions: seq<Action> | Settles(s, actions) ensures Exec(s, actions).source == Some(conf) {
        BoundEndsWith(s, actions, conf);
      }
    } else if s.source.Some? {
      var actions := UnboundCanEndOtherwise(s, conf);
    } else {
      var t := Apply(s, Recreate);
      assert forall i: nat :: (Open(t, i) <==> Open(s, i)) && (Live(t, i) <==> Live(s, i));
      assert !BoundFor(t, conf);
      var rest := UnboundCanEndOtherwise(t, conf);
      SettlesOneMore(s, Recreate, rest);
    }
  }

  /** A reload that a running handler is told of reaches the source for certain exactly when no other is on its way. */
  lemma ReloadReachesSourceExactlyWhen(s: State, conf: Conf)
    requires Valid(s) && s.running && Enabled(s, Reload(conf))
    ensures EndsWith(Apply(s, Reload(conf)), conf) <==> AllOpenCarry(s, conf)
  {
    var t := Apply(s, Reload(conf));
    EndsWithExactlyWhen(t, conf);
    assert Live(t, |s.letters|);
    assert forall i: nat :: Open(t, i) <==> Open(s, i) || i == |s.letters|;
    assert forall i: nat :: Open(s, i) ==> t.letters[i] == s.letters[i];
  }

  /** What may still arrive at the handler is `conf`, and if nothing is certain to arrive, it has that already. */
  ghost predicate HandlerBoundFor(s: State, conf: Conf) {
    && (forall i: nat :: Open(s, i) && s.letters[i].stage == ToHandler ==> s.letters[i].conf == conf)
    && ((exists i: nat :: Live(s, i) && s.letters[i].stage == ToHandler) || s.handler == conf)
  }

  lemma HandlerStaysBound(s: State, a: Action, conf: Conf)
    requires Valid(s) && Enabled(s, a) && OnTheWay(a) && HandlerBoundFor(s, conf)
    ensures HandlerBoundFor(Apply(s, a), conf)
  {
    var t := Apply(s, a);
    forall i: nat | Open(t, i) && t.letters[i].stage == ToHandler ensures Open(s, i) && t.letters[i] == s.letters[i] {
    }
    if t.handler != conf {
      var i: nat :| Live(s, i) && s.letters[i].stage == ToHandler;
      assert Live(t, i) && t.letters[i].stage == ToHandler;
    }
  }

  lemma {:induction false} HandlerEndsWith(s: State, actions: seq<Action>, conf: Conf)
    requires Valid(s) && HandlerBoundFor(s, conf) && Settles(s, actions)
    ensures Exec(s, actions).handler == conf
    decreases |actions|
  {
    if actions != [] {
      HandlerStaysBound(s, actions[0], conf);
      HandlerEndsWith(Apply(s, actions[0]), actions[1..], conf);
    }
  }

  /** Then the handler has it as well, and a source that is created again gets it. */
  lemma ReloadIsKept(s: State, conf: Conf, actions: seq<Action>)
    requires Valid(s) && s.running && Enabled(s, Reload(conf)) && AllOpenCarry(s, conf)
    requires Settles(Apply(s, Reload(conf)), actions)
    ensures var t := Exec(Apply(s, Reload(conf)), actions);
      && t.source == Some(conf) && t.handler == conf
      && Apply(Apply(t, SourceFails), Recreate).source == Some(conf)
  {
    var t := Apply(s, Reload(conf));
    ReloadReachesSourceExactlyWhen(s, conf);
    assert Live(t, |s.letters|) && t.letters[|s.letters|].stage == ToHandler;
    assert forall i: nat :: Open(t, i) && i < |s.letters| ==> Open(s, i) && t.letters[i] == s.letters[i];
    HandlerEndsWith(t, actions, conf);
  }

  /** A source that is started ends up for certain with what the path has exactly when the handler has it already. */
  lemma StartUsesReloadExactlyWhen(s: State)
    requires Valid(s) && Enabled(s, StartHandler)
    ensures EndsWith(Apply(s, StartHandler), s.path) <==> s.handler == s.path && AllOpenCarry(s, s.path)
  {
    var t := Apply(s, StartHandler);
    EndsWithExactlyWhen(t, s.path);
    assert forall i: nat :: (Open(t, i) <==> Open(s, i)) && !Live(t, i);
  }

  /** A reload that comes while the handler is stopped is lost to a source that is started later. */
  lemma LostWhileStopped(conf: Conf, newConf: Conf)
    requires CanBeUpdated(conf, newConf)
    ensures var actions := [Reload(newConf), StartHandler];
      && Runs(Begin(conf), actions)
      && var s := Exec(Begin(conf), actions); s.path == newConf && EndsWith(s, conf)
  {
    var actions := [Reload(newConf), StartHandler];
    assert actions[1..] == [StartHandler] && actions[1..][1..] == [];
    var told, s := State(newConf, conf, false, None, []), State(newConf, conf, true, Some(conf), []);
    assert Apply(Begin(conf), Reload(newConf)) == told;
    assert Exec(told, [StartHandler]) == s;
    EndsWithExactlyWhen(s, conf);
  }
}
