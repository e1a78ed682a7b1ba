// The registry of orphan watchers a process has spawned.

module OrphanWatchers {
  type DataDir = string
  type Child = nat

  /** The registered watcher of each directory, the children `end` was called on, in
      order, and the directory each child was spawned for. Children are numbered as
      they are spawned. */
  datatype Watchers = Watchers(registered: map<DataDir, Child>, ended: seq<Child>, spawnedFor: seq<DataDir>)

  const NO_WATCHERS := Watchers(map[], [], [])

  datatype Operation =
    | Watch(dir: DataDir, spawned: bool)
    | Release(dir: DataDir)
    | FailedStart(dir: DataDir, spawned: bool)

  function AfterWatch(w: Watchers, dir: DataDir): Watchers {
    Watchers(
      w.registered[dir := |w.spawnedFor|],
      if dir in w.registered then w.ended + [w.registered[dir]] else w.ended,
      w.spawnedFor + [dir])
  }

  function AfterRelease(w: Watchers, dir: DataDir): Watchers {
    if dir in w.registered
    then w.(registered := w.registered - {dir}, ended := w.ended + [w.registered[dir]])
    else w
  }

  function After(w: Watchers, op: Operation): Watchers {
    match op
    case Watch(dir, spawned) => if spawned then AfterWatch(w, dir) else w
    case Release(dir) => AfterRelease(w, dir)
    case FailedStart(dir, spawned) => AfterRelease(if spawned then AfterWatch(w, dir) else w, dir)
  }

  function AfterAll(ops: seq<Operation>): Watchers {
    if ops == [] then NO_WATCHERS else After(AfterAll(ops[..|ops| - 1]), ops[|ops| - 1])
  }

  predicate IsRegistered(w: Watchers, c: Child) {
    c < |w.spawnedFor| && w.spawnedFor[c] in w.registered && w.registered[w.spawnedFor[c]] == c
  }

  /** Each child that was ever spawned is either the one registered for its own
      directory, and not ended, or it was ended exactly once. */
  ghost predicate EachEndedOnce(w: Watchers) {
    && (forall dir :: dir in w.registered ==> w.registered[dir] < |w.spawnedFor| && w.spawnedFor[w.registered[dir]] == dir)
    && (forall c: nat :: c < |w.spawnedFor| ==> multiset(w.ended)[c] == if IsRegistered(w, c) then 0 else 1)
    && (forall c :: c in w.ended ==> c < |w.spawnedFor|)
  }

  lemma {:induction false} WatchKeeps(w: Watchers, dir: DataDir)
    requires EachEndedOnce(w)
    ensures EachEndedOnce(AfterWatch(w, dir))
  {
    var w', child := AfterWatch(w, dir), |w.spawnedFor|;
    assert child !in w.ended;
    forall c: nat | c < |w'.spawnedFor|
      ensures multiset(w'.ended)[c] == if IsRegistered(w', c) then 0 else 1
    {
      if c < child {
        assert multiset(w.ended)[c] == if IsRegistered(w, c) then 0 else 1;
      }
    }
  }

  lemma {:induction false} ReleaseKeeps(w: Watchers, dir: DataDir)
    requires EachEndedOnce(w)
    ensures EachEndedOnce(AfterRelease(w, dir)) && dir !in AfterRelease(w, dir).registered
  {
    var w' := AfterRelease(w, dir);
    forall c: nat | c < |w'.spawnedFor|
      ensures multiset(w'.ended)[c] == if IsRegistered(w', c) then 0 else 1
    {
      assert multiset(w.ended)[c] == if IsRegistered(w, c) then 0 else 1;
    }
  }

  lemma {:induction false} OperationKeeps(w: Watchers, op: Operation)
    requires EachEndedOnce(w)
    ensures EachEndedOnce(After(w, op))
    ensures op.FailedStart? ==> op.dir !in After(w, op).registered
  {
    match op
    case Watch(dir, spawned) => if spawned { WatchKeeps(w, dir); }
    case Release(dir) => ReleaseKeeps(w, dir);
    case FailedStart(dir, spawned) =>
      if spawned { WatchKeeps(w, dir); }
      ReleaseKeeps(if spawned then AfterWatch(w, dir) else w, dir);
  }

  /** What each operation does to the registry: a watch that could be spawned leaves the
      new child registered, anything else but a vain watch leaves none, and the watchers of
      other directories stay. */
  lemma {:induction false} OperationDecides(w: Watchers, op: Operation)
    ensures op.Watch? && op.spawned ==> op.dir in After(w, op).registered && After(w, op).registered[op.dir] == |w.spawnedFor|
    ensures op.Watch? && !op.spawned ==> After(w, op) == w
    ensures !op.Watch? ==> op.dir !in After(w, op).registered
    ensures After(w, op).spawnedFor == if !op.Release? && op.spawned then w.spawnedFor + [op.dir] else w.spawnedFor
    ensures forall other :: other != op.dir ==> Untouched(w, After(w, op), other)
  {
  }

  predicate Untouched(w: Watchers, w': Watchers, dir: DataDir) {
    if dir in w.registered then dir in w'.registered && w'.registered[dir] == w.registered[dir] else dir !in w'.registered
  }

  /** The watch at `i` is the last thing that mattered to its directory. */
  ghost predicate LastWatched(ops: seq<Operation>, dir: DataDir, i: nat)
    requires i < |ops|
  {
    ops[i] == Watch(dir, true) && forall j :: i < j < |ops| && ops[j].dir == dir ==> ops[j] == Watch(dir, false)
  }

  /** Over every sequence, a directory has a watcher exactly when one was spawned for it
      that no later release or failed start ended. */
  lemma {:induction false} WatchedIff(ops: seq<Operation>, dir: DataDir)
    ensures dir in AfterAll(ops).registered <==> exists i :: 0 <= i < |ops| && LastWatched(ops, dir, i)
  {
    if ops != [] {
      var init, last := ops[..|ops| - 1], ops[|ops| - 1];
      WatchedIff(init, dir);
      OperationDecides(AfterAll(init), last);
      if dir in AfterAll(ops).registered {
        if last == Watch(dir, true) {
          assert LastWatched(ops, dir, |ops| - 1);
        } else {
          assert Untouched(AfterAll(init), AfterAll(ops), dir);
          var i :| 0 <= i < |init| && LastWatched(init, dir, i);
          assert LastWatched(ops, dir, i);
        }
      }
      forall i | 0 <= i < |init| && LastWatched(ops, dir, i)
        ensures LastWatched(init, dir, i)
      {
      }
    }
  }

  /** Over every sequence of watches, releases and failed starts. */
  lemma {:induction false} EverySequenceEndsEachOnce(ops: seq<Operation>)
    ensures EachEndedOnce(AfterAll(ops))
    ensures ops != [] && ops[|ops| - 1].FailedStart? ==> ops[|ops| - 1].dir !in AfterAll(ops).registered
  {
    if ops != [] {
      EverySequenceEndsEachOnce(ops[..|ops| - 1]);
      OperationKeeps(AfterAll(ops[..|ops| - 1]), ops[|ops| - 1]);
    }
  }

  /** The process-wide registry. */
  class Registry {
    var watchers: map<DataDir, Child>
    ghost var ended: seq<Child>
    ghost var spawnedFor: seq<DataDir>
    var nextChild: nat

    ghost function State(): Watchers
      reads this
    {
      Watchers(watchers, ended, spawnedFor)
    }

    ghost predicate Valid()
      reads this
    {
      EachEndedOnce(State()) && nextChild == |spawnedFor|
    }

    constructor ()
      ensures Valid() && State() == NO_WATCHERS
    {
      watchers, ended, spawnedFor, nextChild := map[], [], [], 0;
    }

    /** Kills and reaps `child`; either may fail, and is not tried again. */
    method End(child: Child) returns (ok: bool)
      modifies this`ended
      ensures ended == old(ended) + [child]
    {
      ended := ended + [child];
      ok := *;
    }

    method SpawnWatcher(dir: DataDir) returns (child: Child)
      requires nextChild == |spawnedFor|
      modifies this`nextChild, this`spawnedFor
      ensures child == old(|spawnedFor|) && spawnedFor == old(spawnedFor) + [dir] && nextChild == |spawnedFor|
    {
      child, nextChild := nextChild, nextChild + 1;
      spawnedFor := spawnedFor + [dir];
    }

    /** Keeps `child` for `dir` and ends the one it replaces. */
    method Register(dir: DataDir, child: Child)
      modifies this`watchers, this`ended
      ensures watchers == old(watchers)[dir := child]
      ensures ended == if dir in old(watchers) then old(ended) + [old(watchers)[dir]] else old(ended)
    {
      var hadOne := dir in watchers;
      var replaced := if hadOne then watchers[dir] else child;
      watchers := watchers[dir := child];
      if hadOne {
        var _ := End(replaced);
      }
    }

    /** Ends the watcher of `dir`, if there is one. */
    method RemoveAndKill(dir: DataDir) returns (found: bool)
      requires Valid()
      modifies this
      ensures Valid() && State() == AfterRelease(old(State()), dir) && found == (dir in old(watchers))
    {
      ReleaseKeeps(State(), dir);
      found := dir in watchers;
      if found {
        var child := watchers[dir];
        watchers := watchers - {dir};
        var _ := End(child);
      }
    }

    /** Watches a slot's owner: skipped when disabled, when `dir` is not a slot, or when
        the watcher cannot be spawned. */
    method WatchSlotOwner(dir: DataDir, disabled: bool, isSlot: bool) returns (watching: bool)
      requires Valid()
      modifies this
      ensures Valid() && State() == After(old(State()), Watch(dir, watching))
      ensures watching ==> !disabled && isSlot
    {
      if disabled || !isSlot { return false; }
      if * { return false; }
      WatchKeeps(State(), dir);
      var child := SpawnWatcher(dir);
      Register(dir, child);
      return true;
    }

    /** A start arms the watcher before its lifecycle and releases it if that fails. */
    method Start(dir: DataDir, disabled: bool, isSlot: bool) returns (ok: bool, ghost watching: bool)
      requires Valid()
      modifies this
      ensures Valid() && (!ok ==> dir !in watchers)
      ensures State() == After(old(State()), if ok then Watch(dir, watching) else FailedStart(dir, watching))
    {
      var armed := WatchSlotOwner(dir, disabled, isSlot);
      watching := armed;
      ok := *;
      if !ok {
        ReleaseKeeps(State(), dir);
        var _ := RemoveAndKill(dir);
      }
    }
  }
}
