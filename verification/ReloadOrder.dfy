/**
 * Reloads on their way from the manager to a path. Each is sent by a goroutine of its own (`go pa.reloadConf`), so that
 * they can arrive in another order than the one in which they were sent.
 */
module ReloadOrder {
  import opened PathConf

  /**
   * `first` is the configuration that the path was created with, `sent` are those that the manager has sent since, and
   * `arrived` are the positions in `sent` of those that have arrived, in order of arrival.
   */
  datatype State = State(first: Conf, sent: seq<Conf>, arrived: seq<nat>)

  datatype Action = Send(conf: Conf) | Arrive(i: nat)

  /** What the manager has. */
  function Current(s: State): Conf {
    if s.sent == [] then s.first else s.sent[|s.sent| - 1]
  }

  predicate Valid(s: State) {
    && (forall k :: 0 <= k < |s.arrived| ==> s.arrived[k] < |s.sent|)
    && (forall i, j :: 0 <= i < j < |s.arrived| ==> s.arrived[i] != s.arrived[j])
  }

  /** What the path has. */
  function Delivered(s: State): Conf
    requires Valid(s)
  {
    if s.arrived == [] then s.first else s.sent[s.arrived[|s.arrived| - 1]]
  }

  predicate Enabled(s: State, a: Action) {
    match a
    case Send(conf) => CanBeUpdated(Current(s), conf) && conf != Current(s)
    case Arrive(i) => i < |s.sent| && i !in s.arrived
  }

  function Apply(s: State, a: Action): (t: State)
    requires Valid(s) && Enabled(s, a)
    ensures Valid(t)
  {
    match a
    case Send(conf) => s.(sent := s.sent + [conf])
    case Arrive(i) =>
      assert forall j :: 0 <= j < |s.arrived| ==> s.arrived[j] in s.arrived;
      s.(arrived := s.arrived + [i])
  }

  predicate Runs(s: State, actions: seq<Action>)
    requires Valid(s)
    decreases |actions|
  {
    actions != [] ==> Enabled(s, actions[0]) && Runs(Apply(s, actions[0]), actions[1..])
  }

  function Exec(s: State, actions: seq<Action>): (t: State)
    requires Valid(s) && Runs(s, actions)
    ensures Valid(t)
    decreases |actions|
  {
    if actions == [] then s else Exec(Apply(s, actions[0]), actions[1..])
  }

  function Start(conf: Conf): State {
    State(conf, [], [])
  }

  predicate AllUpdatable(s: State) {
    forall k :: 0 <= k < |s.sent| ==> CanBeUpdated(s.first, s.sent[k])
  }

  lemma ApplyKeepsUpdatable(s: State, a: Action)
    requires Valid(s) && Enabled(s, a) && AllUpdatable(s)
    ensures AllUpdatable(Apply(s, a))
  {
  }

  lemma {:induction false} RunKeepsUpdatable(s: State, actions: seq<Action>)
    requires Valid(s) && Runs(s, actions) && AllUpdatable(s)
    ensures AllUpdatable(Exec(s, actions)) && Exec(s, actions).first == s.first
    decreases |actions|
  {
    if actions != [] {
      ApplyKeepsUpdatable(s, actions[0]);
      RunKeepsUpdatable(Apply(s, actions[0]), actions[1..]);
    }
  }

  /**
   * Whatever the order of arrival, a configuration that arrives can be taken over from the one that the path has, and
   * what the path has differs from what the manager has in recording and camera tuning only.
   */
  lemma ArrivalsAreUpdatable(conf: Conf, actions: seq<Action>, i: nat)
    requires Runs(Start(conf), actions)
    ensures var s := Exec(Start(conf), actions);
      && (i < |s.sent| ==> CanBeUpdated(Delivered(s), s.sent[i]))
      && CanBeUpdated(Delivered(s), Current(s))
  {
    RunKeepsUpdatable(Start(conf), actions);
    var s := Exec(Start(conf), actions);
    assert CanBeUpdated(s.first, s.first);
  }

  predicate NothingOnTheWay(s: State) {
    forall i :: 0 <= i < |s.sent| ==> i in s.arrived
  }

  predicate OnTheWay(s: State, i: nat) {
    i < |s.sent| && i !in s.arrived
  }

  /** Everything that is on its way arrives, and nothing else happens. */
  predicate Completes(s: State, actions: seq<Action>)
    requires Valid(s)
  {
    && (forall k :: 0 <= k < |actions| ==> actions[k].Arrive?)
    && Runs(s, actions) && NothingOnTheWay(Exec(s, actions))
  }

  /** Arrivals add nothing to what has been sent, and the last one is of a reload that was on its way. */
  lemma {:induction false} LastArrivalWasOnTheWay(s: State, actions: seq<Action>)
    requires Valid(s) && Runs(s, actions) && forall k :: 0 <= k < |actions| ==> actions[k].Arrive?
    ensures Exec(s, actions).sent == s.sent
    ensures var arrived := Exec(s, actions).arrived;
      if actions == [] then arrived == s.arrived
      else arrived != [] && OnTheWay(s, arrived[|arrived| - 1])
    decreases |actions|
  {
    if actions != [] {
      var t := Apply(s, actions[0]);
      LastArrivalWasOnTheWay(t, actions[1..]);
      assert forall i: nat :: OnTheWay(t, i) ==> OnTheWay(s, i);
    }
  }

  /** Any reload that is on its way can be the last to arrive. */
  lemma {:induction false} CanArriveLast(s: State, i: nat, k: nat) returns (actions: seq<Action>)
    requires Valid(s) && OnTheWay(s, i) && k <= |s.sent|
    requires forall j :: 0 <= j < k && j != i ==> j in s.arrived
    ensures Completes(s, actions)
    ensures var arrived := Exec(s, actions).arrived; arrived != [] && arrived[|arrived| - 1] == i
    decreases |s.sent| - k
  {
    if k == |s.sent| {
      actions := [Arrive(i)];
      assert actions[1..] == [];
    } else if k == i || k in s.arrived {
      actions := CanArriveLast(s, i, k + 1);
    } else {
      var rest := CanArriveLast(Apply(s, Arrive(k)), i, k + 1);
      actions := [Arrive(k)] + rest;
      assert actions[1..] == rest;
    }
  }

  /** Whatever the order of arrival, the path ends up with this configuration. */
  ghost predicate EndsWith(s: State, conf: Conf)
    requires Valid(s)
  {
    forall actions: seq<Action> :: Completes(s, actions) ==> Delivered(Exec(s, actions)) == conf
  }

  lemma EndsWithOnlyIf(s: State, conf: Conf, i: nat)
    requires Valid(s) && OnTheWay(s, i) && EndsWith(s, conf)
    ensures s.sent[i] == conf
  {
    var actions := CanArriveLast(s, i, 0);
    LastArrivalWasOnTheWay(s, actions);
    assert Delivered(Exec(s, actions)) == s.sent[i];
  }

  lemma EndsWithIf(s: State, conf: Conf, i: nat)
    requires Valid(s) && OnTheWay(s, i) && forall j: nat :: OnTheWay(s, j) ==> s.sent[j] == conf
    ensures EndsWith(s, conf)
  {
    forall actions: seq<Action> | Completes(s, actions) ensures Delivered(Exec(s, actions)) == conf {
      LastArrivalWasOnTheWay(s, actions);
      assert i in Exec(s, actions).arrived;
    }
  }

  /**
   * When the manager sends a reload, the path is certain to end up with it, if no other is sent, exactly when every
   * reload that is still on its way at that time carries the same configuration.
   */
  lemma AgreesExactlyWhen(s: State, conf: Conf)
    requires Valid(s) && Enabled(s, Send(conf))
    ensures EndsWith(Apply(s, Send(conf)), conf) <==> forall i: nat :: OnTheWay(s, i) ==> s.sent[i] == conf
  {
    var t, last := Apply(s, Send(conf)), |s.sent|;
    assert OnTheWay(t, last) && t.sent[last] == conf;
    assert forall i: nat :: OnTheWay(t, i) <==> OnTheWay(s, i) || i == last;
    assert forall i: nat :: OnTheWay(s, i) ==> t.sent[i] == s.sent[i];
    if EndsWith(t, conf) {
      forall i: nat | OnTheWay(s, i) ensures s.sent[i] == conf {
        EndsWithOnlyIf(t, conf, i);
      }
    } else if forall i: nat :: OnTheWay(s, i) ==> s.sent[i] == conf {
      EndsWithIf(t, conf, last);
    }
  }

  /** Reloads that arrive in the order in which they were sent leave the path with what the manager has. */
  lemma InOrderAgrees(s: State)
    requires Valid(s) && NothingOnTheWay(s) && forall i, j :: 0 <= i < j < |s.arrived| ==> s.arrived[i] < s.arrived[j]
    ensures Delivered(s) == Current(s)
  {
    if s.sent != [] {
      assert |s.sent| - 1 in s.arrived;
    }
  }

  /** Recording is switched on and off again in quick succession, and the path keeps recording. */
  lemma OvertakenReload(conf: Conf)
    requires !conf.record
    ensures var on := conf.(record := true);
      var actions := [Send(on), Send(conf), Arrive(1), Arrive(0)];
      && Runs(Start(conf), actions) && NothingOnTheWay(Exec(Start(conf), actions))
      && Current(Exec(Start(conf), actions)) == conf && Delivered(Exec(Start(conf), actions)) == on
  {
    var on := conf.(record := true);
    var s2 := State(conf, [on, conf], []);
    var actions := [Send(on), Send(conf), Arrive(1), Arrive(0)];
    assert [] + [on] == [on] && [on] + [conf] == [on, conf];
    assert actions[1..] == [Send(conf), Arrive(1), Arrive(0)];
    assert actions[1..][1..] == [Arrive(1), Arrive(0)];
    assert [Arrive(1), Arrive(0)][1..] == [Arrive(0)] && [Arrive(0)][1..] == [];
    assert Apply(Apply(Start(conf), Send(on)), Send(conf)) == s2;
    assert Exec(Start(conf), actions) == Exec(s2, [Arrive(1), Arrive(0)]) == s2.(arrived := [1, 0]);
  }
}
