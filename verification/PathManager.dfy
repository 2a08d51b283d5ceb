/** The two indexes of the path manager (core/path_manager.go) and the steps that change them. */
module PathManager {
  import opened Common
  import opened PathConf
  import PathSpec

  /** A path object: its identity, and the two names by which the manager finds it. A reload never changes a name. */
  datatype PathRef = PathRef(id: nat, name: string, confName: string)

  type Confs = map<string, Conf>

  type Paths = map<string, PathRef>

  datatype Index = Index(paths: Paths, nextId: nat)

  const EMPTY := Index(map[], 0)

  predicate Indexed(x: Index, p: PathRef) {
    p.name in x.paths && x.paths[p.name] == p
  }

  /** `validate` stores in each configuration the key under which it is listed. */
  predicate WellKeyed(confs: Confs) {
    forall c <- confs :: confs[c].name == c
  }

  predicate Inv(x: Index, confs: Confs) {
    && WellKeyed(confs)
    && (forall n <- x.paths :: x.paths[n].name == n && x.paths[n].id < x.nextId && x.paths[n].confName in confs)
  }

  function PathsOf(paths: Paths, confName: string): set<PathRef> {
    set n | n in paths && paths[n].confName == confName :: paths[n]
  }

  /** The second index: for each configuration that has paths, and for no other, the set of its paths. */
  function ByConf(paths: Paths): map<string, set<PathRef>> {
    map c | c in (set n | n in paths :: paths[n].confName) :: PathsOf(paths, c)
  }

  function Create(x: Index, name: string, confName: string): Index {
    Index(x.paths[name := PathRef(x.nextId, name, confName)], x.nextId + 1)
  }

  function Remove(x: Index, p: PathRef): Index {
    x.(paths := x.paths - {p.name})
  }

  /** A path asks to be forgotten; the request may come after the manager has already replaced it. */
  function Close(x: Index, p: PathRef): Index {
    if Indexed(x, p) then Remove(x, p) else x
  }

  lemma PathsOfCreate(x: Index, name: string, confName: string, c: string)
    requires name !in x.paths
    ensures PathsOf(Create(x, name, confName).paths, c) ==
      PathsOf(x.paths, c) + if c == confName then {PathRef(x.nextId, name, confName)} else {}
  {
    var y := Create(x, name, confName).paths;
    forall p | p in PathsOf(x.paths, c) ensures p in PathsOf(y, c) {
      var n :| n in x.paths && x.paths[n] == p;
      assert y[n] == p;
    }
    if c == confName { assert y[name] in PathsOf(y, c); }
  }

  lemma PathsOfRemove(x: Index, p: PathRef, c: string)
    requires Indexed(x, p) && forall n <- x.paths :: x.paths[n].name == n
    ensures PathsOf(Remove(x, p).paths, c) == PathsOf(x.paths, c) - {p}
  {
    var y := Remove(x, p).paths;
    forall q | q in PathsOf(x.paths, c) - {p} ensures q in PathsOf(y, c) {
      var n :| n in x.paths && x.paths[n] == q;
      assert n in y;
    }
  }

  lemma HasPaths(paths: Paths, c: string)
    ensures c in ByConf(paths) <==> PathsOf(paths, c) != {}
  {
    if c in ByConf(paths) {
      var n :| n in paths && paths[n].confName == c;
      assert paths[n] in PathsOf(paths, c);
    }
    if PathsOf(paths, c) != {} {
      var p :| p in PathsOf(paths, c);
    }
  }

  /** What `createPath` does to the second index keeps it the second index. */
  lemma ByConfCreate(x: Index, name: string, confName: string)
    requires name !in x.paths
    ensures var p := PathRef(x.nextId, name, confName);
      ByConf(Create(x, name, confName).paths) == ByConf(x.paths)[confName := PathsOf(x.paths, confName) + {p}]
  {
    var y := Create(x, name, confName).paths;
    forall c ensures c in ByConf(y) <==> c in ByConf(x.paths) || c == confName {
      PathsOfCreate(x, name, confName, c);
      HasPaths(y, c);
      HasPaths(x.paths, c);
    }
    forall c | c in ByConf(y)
      ensures ByConf(y)[c] == PathsOf(x.paths, c) + if c == confName then {PathRef(x.nextId, name, confName)} else {}
    {
      PathsOfCreate(x, name, confName, c);
    }
    var z := ByConf(x.paths)[confName := PathsOf(x.paths, confName) + {PathRef(x.nextId, name, confName)}];
    assert ByConf(y).Keys == z.Keys;
    forall c | c in z ensures ByConf(y)[c] == z[c] {
      if c != confName { assert PathsOf(x.paths, c) + {} == PathsOf(x.paths, c); }
    }
  }

  lemma ByConfRemove(x: Index, p: PathRef)
    requires Indexed(x, p) && forall n <- x.paths :: x.paths[n].name == n
    ensures var others := PathsOf(x.paths, p.confName) - {p};
      ByConf(Remove(x, p).paths) ==
      if others == {} then ByConf(x.paths) - {p.confName} else ByConf(x.paths)[p.confName := others]
  {
    var y := Remove(x, p).paths;
    assert p in PathsOf(x.paths, p.confName);
    forall c ensures PathsOf(y, c) == PathsOf(x.paths, c) - {p} {
      PathsOfRemove(x, p, c);
    }
    forall c | c != p.confName ensures PathsOf(y, c) == PathsOf(x.paths, c) {
      assert p !in PathsOf(x.paths, c);
    }
    forall c ensures c in ByConf(y) <==> PathsOf(y, c) != {} { HasPaths(y, c); }
    forall c ensures c in ByConf(x.paths) <==> PathsOf(x.paths, c) != {} { HasPaths(x.paths, c); }
  }

  /** A close that comes late, from a path that has been replaced, does not touch the path that has its name now. */
  lemma CloseOnlyItself(x: Index, confs: Confs, p: PathRef, q: PathRef)
    requires Inv(x, confs)
    ensures Inv(Close(x, p), confs)
    ensures Indexed(Close(x, p), q) <==> Indexed(x, q) && q != p
  {
  }

  // Reloading

  /** What a reload does with the paths of a configuration. */
  datatype Fate = Untouched | Told | Closed

  function FateOf(oldConfs: Confs, newConfs: Confs, confName: string): Fate
    requires confName in oldConfs
  {
    if confName !in newConfs then Closed
    else if newConfs[confName] == oldConfs[confName] then Untouched
    else if CanBeUpdated(oldConfs[confName], newConfs[confName]) then Told
    else Closed
  }

  /** The configurations among those given that a reload treats in the given way. */
  function WithFate(fate: Fate, oldConfs: Confs, newConfs: Confs, among: set<string>): set<string> {
    set c | c in among && c in oldConfs && FateOf(oldConfs, newConfs, c) == fate
  }

  /** The index without the paths of the given configurations. */
  function Without(x: Index, gone: set<string>): Index {
    x.(paths := map n | n in x.paths && x.paths[n].confName !in gone :: x.paths[n])
  }

  /** `y` extends `x` by one fresh path for each fixed configuration that has none, and by nothing else. */
  predicate Completed(x: Index, y: Index, confs: Confs) {
    && (forall n <- x.paths :: n in y.paths && y.paths[n] == x.paths[n])
    && (forall n <- y.paths :: n in x.paths || AddedFor(x, y.paths[n], n, confs))
    && (forall n <- confs :: confs[n].regexp.None? ==> n in y.paths)
  }

  predicate AddedFor(x: Index, p: PathRef, name: string, confs: Confs) {
    name in confs && confs[name].regexp.None? && p.id >= x.nextId && p.confName == name
  }

  function PathsIn(x: Index, confNames: set<string>): set<PathRef> {
    set n | n in x.paths && x.paths[n].confName in confNames :: x.paths[n]
  }

  function Sent(x: Index, newConfs: Confs, confNames: set<string>): set<(PathRef, Conf)> {
    set n | n in x.paths && x.paths[n].confName in confNames && x.paths[n].confName in newConfs ::
      (x.paths[n], newConfs[x.paths[n].confName])
  }

  /** The outcome of the first loop of a reload: what is left of the index, the paths closed, the reloads sent. */
  datatype Reload = Reload(index: Index, closed: set<PathRef>, told: set<(PathRef, Conf)>)

  function ReloadOf(x: Index, oldConfs: Confs, newConfs: Confs, confNames: set<string>): Reload {
    var gone := WithFate(Closed, oldConfs, newConfs, confNames);
    Reload(Without(x, gone), PathsIn(x, gone), Sent(x, newConfs, WithFate(Told, oldConfs, newConfs, confNames)))
  }

  /** What one turn of the loop adds. */
  function Turn(r: Reload, oldConfs: Confs, newConfs: Confs, c: string): Reload
    requires c in oldConfs
  {
    match FateOf(oldConfs, newConfs, c)
    case Untouched => r
    case Closed => r.(index := Without(r.index, {c}), closed := r.closed + PathsOf(r.index.paths, c))
    case Told => r.(told := r.told + set p | p in PathsOf(r.index.paths, c) :: (p, newConfs[c]))
  }

  lemma ReloadTurn(x: Index, confs: Confs, newConfs: Confs, done: set<string>, c: string)
    requires c in confs && c !in done
    ensures ReloadOf(x, confs, newConfs, done + {c}) == Turn(ReloadOf(x, confs, newConfs, done), confs, newConfs, c)
  {
    var gone := WithFate(Closed, confs, newConfs, done);
    var y := Without(x, gone);
    forall p | p in PathsOf(x.paths, c) ensures p in PathsOf(y.paths, c) {
      var n :| n in x.paths && x.paths[n] == p && p.confName == c;
      assert y.paths[n] == p;
    }
    var fate := FateOf(confs, newConfs, c);
    assert WithFate(Closed, confs, newConfs, done + {c}) == gone + if fate == Closed then {c} else {};
    assert WithFate(Told, confs, newConfs, done + {c}) ==
      WithFate(Told, confs, newConfs, done) + if fate == Told then {c} else {};
  }

  lemma WithoutKeepsInv(x: Index, oldConfs: Confs, newConfs: Confs)
    requires Inv(x, oldConfs) && WellKeyed(newConfs)
    ensures Inv(Without(x, WithFate(Closed, oldConfs, newConfs, oldConfs.Keys)), newConfs)
  {
  }

  // What a reload decides, configuration by configuration

  /** Two configurations that agree in everything but `record` and the camera fields. */
  predicate SameElsewhere(a: Conf, b: Conf) {
    && a.name == b.name && a.regexp == b.regexp
    && a.source == b.source && a.sourceOnDemand == b.sourceOnDemand && a.sourceRedirect == b.sourceRedirect
    && a.maxReaders == b.maxReaders && a.fallback == b.fallback
    && a.overridePublisher == b.overridePublisher && a.runOnDemand == b.runOnDemand
    && a.rest == b.rest
  }

  /** The configuration of a path of the index has gone, or differs in more than can change. */
  predicate HasToClose(x: Index, oldConfs: Confs, newConfs: Confs, p: PathRef)
    requires Inv(x, oldConfs)
  {
    && Indexed(x, p)
    && (p.confName !in newConfs || !SameElsewhere(oldConfs[p.confName], newConfs[p.confName]))
  }

  /** The configuration of a path of the index is now `c`, and differs only in what can change. */
  predicate HasToBeTold(x: Index, oldConfs: Confs, newConfs: Confs, p: PathRef, c: Conf)
    requires Inv(x, oldConfs)
  {
    && Indexed(x, p) && p.confName in newConfs && c == newConfs[p.confName]
    && c != oldConfs[p.confName] && SameElsewhere(oldConfs[p.confName], c)
  }

  /** The index without the paths that have been closed. */
  function Survivors(x: Index, closed: set<PathRef>): Index {
    x.(paths := map n | n in x.paths && x.paths[n] !in closed :: x.paths[n])
  }

  lemma ClosedExactlyWhen(x: Index, oldConfs: Confs, newConfs: Confs, p: PathRef)
    requires Inv(x, oldConfs)
    ensures p in ReloadOf(x, oldConfs, newConfs, oldConfs.Keys).closed <==> HasToClose(x, oldConfs, newConfs, p)
  {
    if HasToClose(x, oldConfs, newConfs, p) {
      assert x.paths[p.name] == p;
    }
  }

  lemma ToldExactlyWhen(x: Index, oldConfs: Confs, newConfs: Confs, p: PathRef, c: Conf)
    requires Inv(x, oldConfs)
    ensures (p, c) in ReloadOf(x, oldConfs, newConfs, oldConfs.Keys).told <==>
            HasToBeTold(x, oldConfs, newConfs, p, c)
  {
    if HasToBeTold(x, oldConfs, newConfs, p, c) {
      assert x.paths[p.name] == p;
    }
  }

  lemma SurvivorsAreLeft(x: Index, oldConfs: Confs, newConfs: Confs)
    requires Inv(x, oldConfs)
    ensures var r := ReloadOf(x, oldConfs, newConfs, oldConfs.Keys); r.index == Survivors(x, r.closed)
  {
    var r := ReloadOf(x, oldConfs, newConfs, oldConfs.Keys);
    forall n | n in x.paths ensures n in r.index.paths <==> x.paths[n] !in r.closed {
      ClosedExactlyWhen(x, oldConfs, newConfs, x.paths[n]);
    }
    assert r.index.paths == Survivors(x, r.closed).paths;
  }

  /** What a path is told is what its loop may receive, if the configuration the path has is the one of the manager. */
  lemma ToldIsAllowed(x: Index, oldConfs: Confs, newConfs: Confs, p: PathRef, c: Conf, s: PathSpec.State)
    requires Inv(x, oldConfs) && HasToBeTold(x, oldConfs, newConfs, p, c)
    requires s.conf == oldConfs[p.confName] && forall n <- newConfs :: newConfs[n].Valid()
    ensures PathSpec.Allowed(s, PathSpec.ReloadConf(c))
  {
  }

  /**
   * A fixed configuration can be left without a path: a path created for a regular expression holds the name when
   * the configuration arrives, which keeps the reload from creating one, and then it goes.
   */
  lemma FixedPathCanBeMissing(name: string, pattern: string, fixed: Conf, general: Conf)
    requires name != pattern && fixed.name == name && general.name == pattern
    requires fixed.regexp.None? && general.regexp.Some?
    ensures var before := map[pattern := general];
      var after := map[pattern := general, name := fixed];
      var x := Create(EMPTY, name, pattern);
      && Inv(x, before)
      && WithFate(Closed, before, after, before.Keys) == {} && Without(x, {}) == x && Completed(x, x, after)
      && name !in Close(x, x.paths[name]).paths
  {
    var x := Create(EMPTY, name, pattern);
    assert Without(x, {}).paths == x.paths;
  }

  // Requests

  /**
   * What `FindPathConf` may return: the configuration of that very name if there is one, otherwise one with a regular
   * expression. Which expression matches is not decided here.
   */
  predicate MayFind(confs: Confs, name: string, found: Option<string>) {
    && (found.Some? ==> found.value in confs && (found.value == name || confs[found.value].regexp.Some?))
    && (found.Some? && name in confs ==> found.value == name)
  }

  /** The manager object. `closed` and `told` are the paths shut down and the reloads sent by the last reload. */
  class Manager {
    var pathConfs: Confs
    var index: Index
    var pathsByConf: map<string, set<PathRef>>
    var closed: set<PathRef>
    var told: set<(PathRef, Conf)>

    ghost predicate Valid()
      reads this
    {
      Inv(index, pathConfs) && pathsByConf == ByConf(index.paths)
    }

    constructor (pathConfs: Confs)
      requires WellKeyed(pathConfs)
      ensures Valid() && this.pathConfs == pathConfs && Completed(EMPTY, index, pathConfs)
      ensures closed == {} && told == {}
    {
      this.pathConfs := pathConfs;
      index, pathsByConf, closed, told := EMPTY, map[], {}, {};
      new;
      CreateFixed();
    }

    method CreatePath(name: string, confName: string)
      requires Valid() && name !in index.paths && confName in pathConfs
      modifies this`index, this`pathsByConf
      ensures Valid() && index == Create(old(index), name, confName)
    {
      ByConfCreate(index, name, confName);
      HasPaths(index.paths, confName);
      var pa := PathRef(index.nextId, name, confName);
      index := Index(index.paths[name := pa], index.nextId + 1);
      if confName !in pathsByConf {
        pathsByConf := pathsByConf[confName := {}];
      }
      pathsByConf := pathsByConf[confName := pathsByConf[confName] + {pa}];
    }

    method RemovePath(pa: PathRef)
      requires Valid() && Indexed(index, pa)
      modifies this`index, this`pathsByConf
      ensures Valid() && index == Remove(old(index), pa)
    {
      ByConfRemove(index, pa);
      pathsByConf := pathsByConf[pa.confName := pathsByConf[pa.confName] - {pa}];
      if pathsByConf[pa.confName] == {} {
        pathsByConf := pathsByConf - {pa.confName};
      }
      index := index.(paths := index.paths - {pa.name});
    }

    method DoClosePath(pa: PathRef)
      requires Valid()
      modifies this`index, this`pathsByConf
      ensures Valid() && index == Close(old(index), pa)
    {
      if pa.name !in index.paths || index.paths[pa.name] != pa {
        return;
      }
      RemovePath(pa);
    }

    /** `doDescribe`, `doAddReader` and `doAddPublisher`: find the path of that name, or create it. */
    method DoRequest(name: string, found: Option<string>, authorized: bool) returns (res: Option<PathRef>)
      requires Valid() && MayFind(pathConfs, name, found)
      modifies this`index, this`pathsByConf
      ensures Valid()
      ensures res.Some? <==> found.Some? && authorized
      ensures res.Some? ==> Indexed(index, res.value) && res.value.name == name
      ensures index ==
        if found.Some? && authorized && name !in old(index).paths then Create(old(index), name, found.value)
        else old(index)
    {
      if found.None? || !authorized {
        return None;
      }
      if name !in index.paths {
        CreatePath(name, found.value);
      }
      return Some(index.paths[name]);
    }

    method ListPathsOf(confName: string) returns (r: set<PathRef>)
      requires Valid()
      ensures r == PathsOf(index.paths, confName)
    {
      HasPaths(index.paths, confName);
      r := if confName in pathsByConf then pathsByConf[confName] else {};
    }

    /** Remove, close and wait for every path of a configuration. */
    method ClosePathsOf(confName: string)
      requires Valid()
      modifies this`index, this`pathsByConf, this`closed
      ensures Valid() && index == Without(old(index), {confName})
      ensures closed == old(closed) + PathsOf(old(index).paths, confName)
    {
      ghost var x := index;
      var todo := ListPathsOf(confName);
      ghost var done: set<PathRef> := {};
      while todo != {}
        invariant Valid() && index.nextId == x.nextId
        invariant done + todo == PathsOf(x.paths, confName) && done !! todo && closed == old(closed) + done
        invariant index.paths == map n | n in x.paths && x.paths[n] !in done :: x.paths[n]
      {
        var pa :| pa in todo;
        assert Indexed(x, pa);
        RemovePath(pa);
        closed := closed + {pa};
        todo := todo - {pa};
        done := done + {pa};
      }
      forall n | n in x.paths ensures x.paths[n] in done <==> x.paths[n].confName == confName {
        assert x.paths[n].confName == confName ==> x.paths[n] in PathsOf(x.paths, confName);
      }
      assert index.paths == Without(x, {confName}).paths;
    }

    method TellPathsOf(confName: string, newConf: Conf)
      requires Valid()
      modifies this`told
      ensures told == old(told) + set p | p in PathsOf(index.paths, confName) :: (p, newConf)
    {
      var todo := ListPathsOf(confName);
      ghost var done: set<PathRef> := {};
      while todo != {}
        invariant done + todo == PathsOf(index.paths, confName)
        invariant told == old(told) + set p | p in done :: (p, newConf)
      {
        var pa :| pa in todo;
        told := told + {(pa, newConf)};
        todo := todo - {pa};
        done := done + {pa};
      }
    }

    /** One path for each configuration without a regular expression that has none yet. */
    method CreateFixed()
      requires Valid()
      modifies this`index, this`pathsByConf
      ensures Valid() && Completed(old(index), index, pathConfs)
    {
      ghost var x := index;
      var todo := pathConfs.Keys;
      while todo != {}
        invariant Valid() && index.nextId >= x.nextId
        invariant forall n <- x.paths :: n in index.paths && index.paths[n] == x.paths[n]
        invariant forall n <- index.paths :: n in x.paths || AddedFor(x, index.paths[n], n, pathConfs)
        invariant forall n <- pathConfs :: n !in todo && pathConfs[n].regexp.None? ==> n in index.paths
      {
        var c :| c in todo;
        if c !in index.paths && pathConfs[c].regexp.None? {
          CreatePath(c, c);
        }
        todo := todo - {c};
      }
    }

    /** One turn of the first loop of a reload. */
    method ReloadPathsOf(confName: string, newPaths: Confs)
      requires Valid() && confName in pathConfs
      modifies this`index, this`pathsByConf, this`closed, this`told
      ensures Valid()
      ensures Reload(index, closed, told) ==
              Turn(Reload(old(index), old(closed), old(told)), pathConfs, newPaths, confName)
    {
      if confName in newPaths {
        var newPath := newPaths[confName];
        if newPath != pathConfs[confName] {
          if CanBeUpdated(pathConfs[confName], newPath) {
            TellPathsOf(confName, newPath);
          } else {
            ClosePathsOf(confName);
          }
        }
      } else {
        ClosePathsOf(confName);
      }
    }

    method ReloadPaths(newPaths: Confs)
      requires Valid() && closed == {} && told == {}
      modifies this`index, this`pathsByConf, this`closed, this`told
      ensures Valid()
      ensures Reload(index, closed, told) == ReloadOf(old(index), pathConfs, newPaths, pathConfs.Keys)
    {
      ghost var x := index;
      var todo := pathConfs.Keys;
      ghost var done: set<string> := {};
      assert Without(x, {}).paths == x.paths;
      while todo != {}
        invariant Valid() && done + todo == pathConfs.Keys && done !! todo
        invariant Reload(index, closed, told) == ReloadOf(x, pathConfs, newPaths, done)
      {
        var confName :| confName in todo;
        ReloadTurn(x, pathConfs, newPaths, done, confName);
        ReloadPathsOf(confName, newPaths);
        todo := todo - {confName};
        done := done + {confName};
      }
      assert done == pathConfs.Keys;
    }

    /**
     * Exactly the paths of configurations that are gone or cannot be updated are closed, exactly the paths of those
     * that have changed and can be updated are told, and every fixed configuration has a path afterwards.
     */
    method DoReloadConf(newPaths: Confs)
      requires Valid() && WellKeyed(newPaths)
      modifies this
      ensures Valid() && pathConfs == newPaths
      ensures var r := ReloadOf(old(index), old(pathConfs), newPaths, old(pathConfs).Keys);
        Completed(r.index, index, newPaths) && closed == r.closed && told == r.told
      ensures forall p :: p in closed <==> HasToClose(old(index), old(pathConfs), newPaths, p)
      ensures forall p, c :: (p, c) in told <==> HasToBeTold(old(index), old(pathConfs), newPaths, p, c)
      ensures Completed(Survivors(old(index), closed), index, newPaths)
    {
      ghost var x, confs := index, pathConfs;
      closed, told := {}, {};
      ReloadPaths(newPaths);
      WithoutKeepsInv(old(index), pathConfs, newPaths);
      pathConfs := newPaths;
      CreateFixed();
      forall p ensures p in closed <==> HasToClose(x, confs, newPaths, p) {
        ClosedExactlyWhen(x, confs, newPaths, p);
      }
      forall p, c ensures (p, c) in told <==> HasToBeTold(x, confs, newPaths, p, c) {
        ToldExactlyWhen(x, confs, newPaths, p, c);
      }
      SurvivorsAreLeft(x, confs, newPaths);
    }
  }
}
