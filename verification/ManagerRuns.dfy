/** Runs of the path manager between two reloads (core/path_manager.go): closes and requests in any order. */
module ManagerRuns {
  import opened Common
  import opened PathConf
  import opened PathManager

  datatype Event =
    | Forget(pa: PathRef)
    | Request(name: string, found: Option<string>, authorized: bool)

  function Act(x: Index, e: Event): Index {
    match e
    case Forget(pa) => Close(x, pa)
    case Request(name, found, authorized) =>
      if found.Some? && authorized && name !in x.paths then Create(x, name, found.value) else x
  }

  /**
   * A path that is not replaced or terminated asks to be forgotten only if its configuration has a regular expression;
   * a request comes with what `FindPathConf` may return.
   */
  predicate MayHappen(x: Index, confs: Confs, e: Event)
    requires Inv(x, confs)
  {
    match e
    case Forget(pa) => Indexed(x, pa) ==> confs[pa.confName].regexp.Some?
    case Request(name, found, _) => MayFind(confs, name, found)
  }

  lemma ActKeepsInv(x: Index, confs: Confs, e: Event)
    requires Inv(x, confs) && MayHappen(x, confs, e)
    ensures Inv(Act(x, e), confs)
  {
  }

  predicate Happens(x: Index, confs: Confs, events: seq<Event>)
    requires Inv(x, confs)
    decreases |events|
  {
    events != [] ==>
      && MayHappen(x, confs, events[0])
      && (ActKeepsInv(x, confs, events[0]); Happens(Act(x, events[0]), confs, events[1..]))
  }

  function After(x: Index, confs: Confs, events: seq<Event>): (y: Index)
    requires Inv(x, confs) && Happens(x, confs, events)
    ensures Inv(y, confs)
    decreases |events|
  {
    if events == [] then x
    else ActKeepsInv(x, confs, events[0]); After(Act(x, events[0]), confs, events[1..])
  }

  predicate Fixed(confs: Confs, name: string) {
    name in confs && confs[name].regexp.None?
  }

  /** A path that belongs to the fixed configuration of its name stays. */
  lemma {:induction false} OwnPathStays(x: Index, confs: Confs, events: seq<Event>, name: string)
    requires Inv(x, confs) && Happens(x, confs, events) && Fixed(confs, name)
    requires name in x.paths && x.paths[name].confName == name
    ensures name in After(x, confs, events).paths && After(x, confs, events).paths[name] == x.paths[name]
    decreases |events|
  {
    if events != [] {
      ActKeepsInv(x, confs, events[0]);
      OwnPathStays(Act(x, events[0]), confs, events[1..], name);
    }
  }

  /** A request for the name that finds its configuration and is authorized. */
  predicate Revives(e: Event, name: string) {
    e.Request? && e.name == name && e.found.Some? && e.authorized
  }

  /** A missing path stays missing exactly until such a request; the path created then belongs to the configuration. */
  lemma {:induction false} MissingUntilRevived(x: Index, confs: Confs, events: seq<Event>, name: string)
    requires Inv(x, confs) && Happens(x, confs, events) && Fixed(confs, name) && name !in x.paths
    ensures name !in After(x, confs, events).paths <==> forall j :: 0 <= j < |events| ==> !Revives(events[j], name)
    decreases |events|
  {
    if events != [] {
      var e, rest := events[0], events[1..];
      ActKeepsInv(x, confs, e);
      assert forall j :: 0 <= j < |rest| ==> rest[j] == events[j + 1];
      if Revives(e, name) {
        OwnPathStays(Act(x, e), confs, rest, name);
      } else {
        MissingUntilRevived(Act(x, e), confs, rest, name);
        assert forall j :: 0 < j < |events| ==> events[j] == rest[j - 1];
      }
    }
  }

  /** The path asks to be forgotten, for the first time at `i`, and nobody asks for its name afterwards. */
  predicate GoesAt(events: seq<Event>, pa: PathRef, i: nat) {
    && i < |events| && events[i] == Forget(pa)
    && (forall k :: 0 <= k < i ==> events[k] != Forget(pa))
    && (forall j :: i < j < |events| ==> !Revives(events[j], pa.name))
  }

  lemma GoesLater(events: seq<Event>, pa: PathRef)
    requires events != [] && events[0] != Forget(pa)
    ensures (exists i: nat :: GoesAt(events, pa, i)) <==> exists i: nat :: GoesAt(events[1..], pa, i)
  {
    var rest := events[1..];
    forall i: nat | GoesAt(rest, pa, i) ensures GoesAt(events, pa, i + 1) {
      assert forall k :: 0 < k < |events| ==> events[k] == rest[k - 1];
    }
    forall i: nat | GoesAt(events, pa, i) ensures i > 0 && GoesAt(rest, pa, i - 1) {
      assert forall k :: 0 <= k < |rest| ==> rest[k] == events[k + 1];
    }
  }

  /**
   * Starting from an index in which a fixed configuration has a path, as it has after a reload, it is left without one
   * exactly when the path that holds its name goes and nobody asks for the name afterwards.
   */
  lemma {:induction false} MissingExactlyWhen(x: Index, confs: Confs, events: seq<Event>, name: string)
    requires Inv(x, confs) && Happens(x, confs, events) && Fixed(confs, name) && name in x.paths
    ensures name !in After(x, confs, events).paths <==> exists i: nat :: GoesAt(events, x.paths[name], i)
    decreases |events|
  {
    if events != [] {
      var e, rest, pa := events[0], events[1..], x.paths[name];
      ActKeepsInv(x, confs, e);
      if e == Forget(pa) {
        MissingUntilRevived(Act(x, e), confs, rest, name);
        assert (exists i: nat :: GoesAt(events, pa, i)) <==> GoesAt(events, pa, 0);
        assert forall j :: 0 <= j < |rest| ==> rest[j] == events[j + 1];
        assert forall j :: 0 < j < |events| ==> events[j] == rest[j - 1];
      } else {
        MissingExactlyWhen(Act(x, e), confs, rest, name);
        GoesLater(events, pa);
      }
    }
  }

  /**
   * After a reload every fixed configuration has a path, and keeps one over any run, unless the name was taken by a
   * path of another configuration.
   */
  lemma FixedPathsStay(before: Index, x: Index, confs: Confs, events: seq<Event>, name: string)
    requires Inv(x, confs) && Completed(before, x, confs) && Happens(x, confs, events) && Fixed(confs, name)
    requires name in before.paths ==> before.paths[name].confName == name
    ensures name in After(x, confs, events).paths
  {
    OwnPathStays(x, confs, events, name);
  }

  /** The manager, serving any closes and requests. */
  method Serve(m: Manager, events: seq<Event>)
    requires m.Valid() && Happens(m.index, m.pathConfs, events)
    modifies m`index, m`pathsByConf
    ensures m.Valid() && Inv(old(m.index), m.pathConfs)
    ensures m.index == After(old(m.index), m.pathConfs, events)
  {
    ghost var x := m.index;
    for i := 0 to |events|
      invariant m.Valid() && Inv(x, m.pathConfs)
      invariant Happens(m.index, m.pathConfs, events[i..])
      invariant After(m.index, m.pathConfs, events[i..]) == After(x, m.pathConfs, events)
    {
      ghost var rest := events[i..];
      assert rest[0] == events[i] && rest[1..] == events[i + 1..];
      match events[i]
      case Forget(pa) => m.DoClosePath(pa);
      case Request(name, found, authorized) =>
        var _ := m.DoRequest(name, found, authorized);
    }
  }
}
