// Exactly when one install tree never has two writers, and a removal never a live peer.

module InstallExclusion {
  import opened InstallProtocol
  import opened InstallSafety
  import opened Options

  /** In no run do two processes write the same install tree at once. */
  ghost predicate TreeWritesExclude(c: Config) {
    forall s, p, q :: Reachable(c, s) && OnSameTree(c, s, p, q) ==>
      !(TreeWriting(s.procs[p].phase) && TreeWriting(s.procs[q].phase))
  }

  ghost predicate SharesTree(c: Config, p: Pid, q: Pid) {
    p in c.place && q in c.place && p != q && c.place[p].tree == c.place[q].tree
  }

  /** All that share a tree have slots, under one slot parent. */
  ghost predicate SharersAreSlotted(c: Config) {
    forall p, q :: SharesTree(c, p, q) ==>
      c.place[p].Slotted? && c.place[q].Slotted? && c.place[p].parent == c.place[q].parent
  }

  /** In no run does a process remove a tree while a slotted process that shares it has
      begun to claim its slot and is not gone. */
  ghost predicate RemovalsSeeNoPeer(c: Config) {
    forall s, p, q :: Reachable(c, s) && OnSameTree(c, s, p, q) && s.procs[p].phase.Removing? && c.place[q].Slotted? ==>
      s.procs[q].phase.Idle? || s.procs[q].phase.Gone?
  }

  /** Whoever shares a tree with a slotted process cleans up under that process's guard. */
  ghost predicate SlottedAreProtected(c: Config) {
    forall p :: p in c.place && c.place[p].Slotted? ==> IsProtected(c, p)
  }

  // ----- A run in which a removal overruns a start -----

  const IDLE := Process(Idle, NO_LOCKS)

  /** The state where `o` and `u` are at the given processes and nobody else has started. */
  function Duo(c: Config, o: Pid, atO: Process, u: Pid, atU: Process, d: Disk): State {
    State(map p | p in c.place :: if p == o then atO else if p == u then atU else IDLE, d)
  }

  lemma {:induction false} NothingStarted(c: Config, o: Pid, u: Pid)
    ensures Reachable(c, Duo(c, o, IDLE, u, IDLE, Disk(map[], 0, map[])))
  {
    var s := Duo(c, o, IDLE, u, IDLE, Disk(map[], 0, map[]));
    assert Init(c, s) && Runs(c, s, [], s);
  }

  lemma {:induction false} ApplyToDuo(c: Config, o: Pid, at: Process, u: Pid, atU: Process, d: Disk, f: Effect)
    requires o in c.place && u in c.place && o != u
    ensures Apply(Duo(c, o, at, u, atU, d), o, f) == Duo(c, o, Process(f.phase, LocksAfter(f)), u, atU, f.disk)
  {}

  lemma {:induction false} FreeInDuo(c: Config, o: Pid, at: Process, u: Pid, atU: Process, d: Disk, lock: Lock)
    requires !Blocks(at.held, lock) && !Blocks(atU.held, lock)
    ensures Free(Duo(c, o, at, u, atU, d), lock)
  {}

  /** `o` takes one step while everyone else stays where they are. */
  lemma {:induction false} Move(c: Config, o: Pid, at: Process, u: Pid, atU: Process, d: Disk, a: Action, f: Effect)
    requires o in c.place && u in c.place && o != u && Reachable(c, Duo(c, o, at, u, atU, d))
    requires EffectOf(c, Duo(c, o, at, u, atU, d), o, a) == Some(f)
    requires f.take.Some? ==> !Blocks(at.held, f.take.value) && !Blocks(atU.held, f.take.value)
    ensures Reachable(c, Duo(c, o, Process(f.phase, LocksAfter(f)), u, atU, f.disk))
  {
    ApplyToDuo(c, o, at, u, atU, d, f);
    if f.take.Some? { FreeInDuo(c, o, at, u, atU, d, f.take.value); }
    ReachableStep(c, Duo(c, o, at, u, atU, d), Event(o, a));
  }

  lemma {:induction false} Swap(c: Config, o: Pid, atO: Process, u: Pid, atU: Process, d: Disk)
    requires o != u
    ensures Duo(c, o, atO, u, atU, d) == Duo(c, u, atU, o, atO, d)
  {}

  function Claimed(c: Config, o: Pid, ph: Phase): Process
    requires o in c.place
  {
    Process(ph, NO_LOCKS.(slot := c.place[o].Slotted?))
  }

  lemma {:induction false} ClaimAlone(c: Config, o: Pid, u: Pid, atU: Process, d: Disk)
    requires o in c.place && u in c.place && o != u && Reachable(c, Duo(c, o, IDLE, u, atU, d))
    requires atU.held.guard == None
    ensures Reachable(c, Duo(c, o, Claimed(c, o, Ready), u, atU, d))
  {
    match c.place[o]
    case Slotted(_, r) =>
      Move(c, o, IDLE, u, atU, d, Claim(TakeGuard), Effect(Sweeping, NO_LOCKS, Some(Guard(r)), d));
      var guarded := NO_LOCKS.(guard := Some(r));
      Move(c, o, Process(Sweeping, guarded), u, atU, d, Claim(TakeSlot), Effect(SlotTaken, guarded, Some(Slot), d));
      Move(c, o, Process(SlotTaken, guarded.(slot := true)), u, atU, d, Claim(DropGuard),
           Effect(Ready, NO_LOCKS.(slot := true), None, d));
    case Explicit(_, _) =>
      Move(c, o, IDLE, u, atU, d, Claim(SkipSlot), Effect(Ready, NO_LOCKS, None, d));
  }

  /** A start with no cached version reaches Setup holding the setup lock. */
  lemma {:induction false} MissAlone(c: Config, o: Pid, u: Pid, atU: Process, d: Disk)
    requires o in c.place && u in c.place && o != u && Reachable(c, Duo(c, o, Claimed(c, o, Ready), u, atU, d))
    requires atU.held.setup == None
    ensures var t := c.place[o].tree;
      var fd := OpenedInode(d, t);
      Reachable(c, Duo(c, o, Process(MissSetup(fd, 0), Claimed(c, o, Ready).held.(setup := Some(fd))), u, atU, AfterOpen(d, t)))
  {
    var fd, d', h := OpenedInode(d, c.place[o].tree), AfterOpen(d, c.place[o].tree), Claimed(c, o, Ready).held;
    Move(c, o, Claimed(c, o, Ready), u, atU, d, Look(OpenLock), Effect(LockOpened(fd), h, None, d'));
    Move(c, o, Process(LockOpened(fd), h), u, atU, d', Look(TakeSetup), Effect(Lookup(fd), h, Some(Setup(fd)), d'));
    Move(c, o, Process(Lookup(fd), h.(setup := Some(fd))), u, atU, d', Look(FindNone(0)),
         Effect(MissSetup(fd, 0), h.(setup := Some(fd)), None, d'));
  }

  lemma {:induction false} HookAlone(c: Config, o: Pid, fd: Inode, h: Held, u: Pid, atU: Process, d: Disk)
    requires o in c.place && u in c.place && o != u && h.entry == None
    requires Reachable(c, Duo(c, o, Process(MissSetup(fd, 0), h), u, atU, d))
    ensures Reachable(c, Duo(c, o, Process(Hook(fd, true, 0), h), u, atU, d))
  {
    Move(c, o, Process(MissSetup(fd, 0), h), u, atU, d, Populate(SetupDone(0)), Effect(PopulateCheck(fd, 0), h, None, d));
    Move(c, o, Process(PopulateCheck(fd, 0), h), u, atU, d, Populate(SkipPopulate(0)), Effect(Hook(fd, true, 0), h, None, d));
  }

  lemma {:induction false} FinishAlone(c: Config, o: Pid, fd: Inode, h: Held, u: Pid, atU: Process, d: Disk)
    requires o in c.place && u in c.place && o != u
    requires Reachable(c, Duo(c, o, Process(Hook(fd, true, 0), h), u, atU, d))
    ensures Reachable(c, Duo(c, o, Process(Running, h.(setup := None)), u, atU, d))
  {
    Move(c, o, Process(Hook(fd, true, 0), h), u, atU, d, Extend(HookDone), Effect(Starting(Some(fd)), h, None, d));
    Move(c, o, Process(Starting(Some(fd)), h), u, atU, d, End(Started), Effect(Running, h.(setup := None), None, d));
  }

  lemma {:induction false} RunAlone(c: Config, o: Pid, u: Pid)
    requires o in c.place && u in c.place && o != u
    ensures Reachable(c, Duo(c, o, Claimed(c, o, Running), u, IDLE, Disk(map[c.place[o].tree := 0], 1, map[])))
  {
    var d0 := Disk(map[], 0, map[]);
    NothingStarted(c, o, u);
    ClaimAlone(c, o, u, IDLE, d0);
    MissAlone(c, o, u, IDLE, d0);
    var d, h := AfterOpen(d0, c.place[o].tree), Claimed(c, o, Ready).held.(setup := Some(0));
    HookAlone(c, o, 0, h, u, IDLE, d);
    FinishAlone(c, o, 0, h, u, IDLE, d);
  }

  lemma {:induction false} SetupBesideServer(c: Config, u: Pid, o: Pid, d: Disk)
    requires SharesTree(c, u, o) && d == Disk(map[c.place[o].tree := 0], 1, map[])
    requires Reachable(c, Duo(c, o, Claimed(c, o, Running), u, IDLE, d))
    ensures Reachable(c, Duo(c, o, Claimed(c, o, Running),
                             u, Process(MissSetup(0, 0), Claimed(c, u, Ready).held.(setup := Some(0))), d))
  {
    Swap(c, o, Claimed(c, o, Running), u, IDLE, d);
    ClaimAlone(c, u, o, Claimed(c, o, Running), d);
    MissAlone(c, u, o, Claimed(c, o, Running), d);
    Swap(c, o, Claimed(c, o, Running), u, Process(MissSetup(0, 0), Claimed(c, u, Ready).held.(setup := Some(0))), d);
  }

  lemma {:induction false} StopAlone(c: Config, o: Pid, u: Pid, atU: Process, d: Disk)
    requires o in c.place && u in c.place && o != u && Reachable(c, Duo(c, o, Claimed(c, o, Running), u, atU, d))
    ensures Reachable(c, Duo(c, o, Claimed(c, o, Stopping(false)), u, atU, d))
  {
    var h := Claimed(c, o, Running).held;
    Move(c, o, Claimed(c, o, Running), u, atU, d, End(StopFully(false)), Effect(Stopping(false), h, None, d));
  }

  lemma {:induction false} ProbeAlone(c: Config, o: Pid, h: Held, u: Pid, atU: Process, d: Disk)
    requires o in c.place && u in c.place && o != u && Reachable(c, Duo(c, o, Process(Planning(false), h), u, atU, d))
    requires atU.held.slot ==> !IsPeer(c.place[o], c.place[u])
    ensures Reachable(c, Duo(c, o, Process(Removing(0, false), h), u, atU, d))
  {
    assert !HasLivePeer(c, Duo(c, o, Process(Planning(false), h), u, atU, d), o);
    Move(c, o, Process(Planning(false), h), u, atU, d, Clean(Probe(0)), Effect(Removing(0, false), h, None, d));
  }

  lemma {:induction false} RemoveAlone(c: Config, o: Pid, u: Pid, atU: Process, d: Disk) returns (h: Held)
    requires o in c.place && u in c.place && o != u && Reachable(c, Duo(c, o, Claimed(c, o, Stopping(false)), u, atU, d))
    requires atU.held.guard == None && (atU.held.slot ==> !IsPeer(c.place[o], c.place[u]))
    ensures Reachable(c, Duo(c, o, Process(Removing(0, false), h), u, atU, d))
  {
    h := Claimed(c, o, Running).held;
    match GuardOf(c.place[o])
    case None =>
      Move(c, o, Process(Stopping(false), h), u, atU, d, Clean(SkipGuard(0)), Effect(Removing(0, false), h, None, d));
    case Some(r) =>
      Move(c, o, Process(Stopping(false), h), u, atU, d, Clean(TakeCleanupGuard),
           Effect(Planning(false), h, Some(Guard(r)), d));
      h := h.(guard := Some(r));
      ProbeAlone(c, o, h, u, atU, d);
  }

  /** A start that another process on its tree does not look for, because it has no slot or
      because that process cleans up under no guard or another one, can be overrun: the
      tree is removed while the start sets up in it. */
  lemma {:induction false} UnseenStartIsOverrun(c: Config, u: Pid, o: Pid)
    requires SharesTree(c, u, o) && !IsPeer(c.place[o], c.place[u])
    ensures exists s :: Reachable(c, s) && OnSameTree(c, s, o, u) && s.procs[u].phase.MissSetup? && s.procs[o].phase.Removing?
  {
    var d := Disk(map[c.place[o].tree := 0], 1, map[]);
    var atU := Process(MissSetup(0, 0), Claimed(c, u, Ready).held.(setup := Some(0)));
    RunAlone(c, o, u);
    SetupBesideServer(c, u, o, d);
    StopAlone(c, o, u, atU, d);
    var h := RemoveAlone(c, o, u, atU, d);
    assert OnSameTree(c, Duo(c, o, Process(Removing(0, false), h), u, atU, d), o, u);
  }

  // ----- The exact conditions -----

  lemma {:induction false} SharersAreProtected(c: Config, p: Pid)
    requires SharersAreSlotted(c) && p in c.place && c.place[p].Slotted?
    ensures IsProtected(c, p)
  {
    forall q | q in c.place && q != p && c.place[q].tree == c.place[p].tree
      ensures IsPeer(c.place[q], c.place[p])
    {
      assert SharesTree(c, p, q);
    }
  }

  /** One install tree has at most one writer in every run exactly when all processes
      that share it have slots under one slot parent. */
  lemma {:induction false} ExclusionIffSlotted(c: Config)
    ensures TreeWritesExclude(c) <==> SharersAreSlotted(c)
  {
    if SharersAreSlotted(c) {
      forall s, p, q | Reachable(c, s) && OnSameTree(c, s, p, q)
        ensures !(TreeWriting(s.procs[p].phase) && TreeWriting(s.procs[q].phase))
      {
        if TreeWriting(s.procs[p].phase) && TreeWriting(s.procs[q].phase) {
          assert SharesTree(c, p, q) && SharesTree(c, q, p);
          SharersAreProtected(c, p);
          SharersAreProtected(c, q);
          TreeWritersExclude(c, s, p, q);
        }
      }
    } else {
      var u, o :| SharesTree(c, u, o) &&
        !(c.place[u].Slotted? && c.place[o].Slotted? && c.place[u].parent == c.place[o].parent);
      if IsPeer(c.place[o], c.place[u]) {
        UnseenStartIsOverrun(c, o, u);
      } else {
        UnseenStartIsOverrun(c, u, o);
      }
    }
  }

  /** A removal never sees a live slotted process on its tree exactly when every process
      that shares a tree with a slotted one cleans up under that one's guard. */
  lemma {:induction false} NoPeerIffProtected(c: Config)
    ensures RemovalsSeeNoPeer(c) <==> SlottedAreProtected(c)
  {
    if SlottedAreProtected(c) {
      forall s, p, q | Reachable(c, s) && OnSameTree(c, s, p, q) && s.procs[p].phase.Removing? && c.place[q].Slotted?
        ensures s.procs[q].phase.Idle? || s.procs[q].phase.Gone?
      {
        assert IsProtected(c, q);
        RemovalSeesNoPeer(c, s, p, q);
      }
    } else {
      var u :| u in c.place && c.place[u].Slotted? && !IsProtected(c, u);
      var o :| o in c.place && o != u && c.place[o].tree == c.place[u].tree && !IsPeer(c.place[o], c.place[u]);
      UnseenStartIsOverrun(c, u, o);
    }
  }
}
