// Progress of the install-tree protocol: no reachable state is stuck, and every
// run is finite.

module InstallProgress {
  import opened InstallProtocol
  import opened InstallSafety
  import opened Options

  /** The lock a process is blocked on until nobody else holds it. */
  function Wanted(pl: Place, ph: Phase): Option<Lock> {
    match ph
    case Idle => if pl.Slotted? then Some(Guard(pl.parent)) else None
    case LockOpened(fd) => Some(Setup(fd))
    case HookOpened(fd) => Some(Setup(fd))
    case WaitShared(_, v) => Some(Entry(v, false))
    case WaitExclusive(_, v) => Some(Entry(v, true))
    case WaitArchive(_, _, g, _) => Some(Archive(g))
    case Stopping(_) => if GuardOf(pl).Some? then Some(Guard(GuardOf(pl).value)) else None
    case _ => None
  }

  /** Death and the error branches, which no progress may rely on. */
  predicate IsFault(a: Action) {
    match a
    case Claim(x) => x.ClaimFailed?
    case Look(x) => x.SharedLockError? || x.CopyFailed?
    case Populate(x) => x.ExclusiveLockError? || x.PopulateFailed?
    case Extend(_) => false
    case End(x) => x.Fail? || x.Die?
    case Clean(x) => x.GuardError? || x.ProbeError?
  }

  /** A fault takes `p` to `at` and changes nothing on disk. */
  ghost predicate FaultLeads(c: Config, s: State, p: Pid, a: Action, at: Process) {
    && IsFault(a) && Enabled(c, s, Event(p, a))
    && p in Do(c, s, Event(p, a)).procs && Do(c, s, Event(p, a)).procs[p] == at && Do(c, s, Event(p, a)).disk == s.disk
  }

  /** Whatever goes wrong with the cache, the start goes on without it: a lookup or a copy
      that fails becomes a miss, and a population that fails or gets no lock is passed
      over, in each case with the lock on the entry let go. */
  lemma {:induction false} CacheFailuresFallBack(c: Config, s: State, p: Pid, n: nat)
    requires p in s.procs && p in c.place
    ensures var ph, h := s.procs[p].phase, s.procs[p].held;
      && (n <= c.work && (ph.WaitShared? || ph.Copying?) ==>
            exists a :: FaultLeads(c, s, p, a, Process(MissSetup(ph.fd, n), h.(entry := None))))
      && (n <= c.archives && (ph.WaitExclusive? || ph.Populating?) ==>
            exists a :: FaultLeads(c, s, p, a, Process(Hook(ph.fd, true, n), h.(entry := None))))
  {
    var ph, h := s.procs[p].phase, s.procs[p].held;
    if n <= c.work && (ph.WaitShared? || ph.Copying?) {
      var a := Look(if ph.WaitShared? then SharedLockError(n) else CopyFailed(n));
      assert FaultLeads(c, s, p, a, Process(MissSetup(ph.fd, n), h.(entry := None)));
    }
    if n <= c.archives && (ph.WaitExclusive? || ph.Populating?) {
      var a := Populate(if ph.WaitExclusive? then ExclusiveLockError(n) else PopulateFailed(n));
      assert FaultLeads(c, s, p, a, Process(Hook(ph.fd, true, n), h.(entry := None)));
    }
  }

  /** A cleanup that gets no guard, or cannot probe under it, ends its round without the
      guard and without removing anything of the tree. */
  lemma {:induction false} CleanupFailuresKeepTree(c: Config, s: State, p: Pid, round: Phase)
    requires p in s.procs && p in c.place && (s.procs[p].phase.Stopping? || s.procs[p].phase.Planning?)
    requires round == if s.procs[p].phase.again then Stopping(false) else Stopped
    ensures s.procs[p].phase.Stopping? && GuardOf(c.place[p]).Some? ==>
      exists a :: FaultLeads(c, s, p, a, Process(round, s.procs[p].held))
    ensures s.procs[p].phase.Planning? ==>
      exists a :: FaultLeads(c, s, p, a, Process(round, s.procs[p].held.(guard := None)))
  {
    if s.procs[p].phase.Planning? {
      assert FaultLeads(c, s, p, Clean(ProbeError), Process(round, s.procs[p].held.(guard := None)));
    } else if GuardOf(c.place[p]).Some? {
      assert FaultLeads(c, s, p, Clean(GuardError), Process(round, s.procs[p].held));
    }
  }

  /** A process may die at any moment and then holds nothing; and a start may fail at any
      moment between its claim and its return, and then holds its slot alone. */
  lemma {:induction false} DeathDropsEverything(c: Config, s: State, p: Pid)
    requires p in s.procs && p in c.place
    ensures !s.procs[p].phase.Gone? ==> exists a :: FaultLeads(c, s, p, a, Process(Gone, NO_LOCKS))
    ensures InStart(s.procs[p].phase) ==>
      exists a :: FaultLeads(c, s, p, a, Process(Failed, Held(None, s.procs[p].held.slot, None, None, None)))
  {
    if !s.procs[p].phase.Gone? { assert FaultLeads(c, s, p, End(Die), Process(Gone, NO_LOCKS)); }
    if InStart(s.procs[p].phase) {
      assert FaultLeads(c, s, p, End(Fail), Process(Failed, Held(None, s.procs[p].held.slot, None, None, None)));
    }
  }

  /** Under the guard a cleanup that does not fail removes the tree exactly when no other
      process holds a slot lock under that guard's parent. */
  lemma {:induction false} PeerDecides(c: Config, s: State, e: Event)
    requires Enabled(c, s, e) && !IsFault(e.action) && s.procs[e.pid].phase.Planning?
    ensures Do(c, s, e).procs[e.pid].phase.Removing? <==>
      !exists q :: q in s.procs && q in c.place && q != e.pid && s.procs[q].held.slot &&
        c.place[q].Slotted? && GuardOf(c.place[e.pid]) == Some(c.place[q].parent)
  {
    assert HasLivePeer(c, s, e.pid) <==>
      exists q :: q in s.procs && q in c.place && q != e.pid && s.procs[q].held.slot && IsPeer(c.place[e.pid], c.place[q]);
  }

  /** A step the process takes next when its lock, if it wants one, is free. */
  ghost function NextAction(c: Config, s: State, p: Pid): Action
    requires p in s.procs && p in c.place
  {
    var pl, d := c.place[p], s.disk;
    match s.procs[p].phase
    case Idle => Claim(if pl.Slotted? then TakeGuard else SkipSlot)
    case Sweeping => Claim(TakeSlot)
    case SlotTaken => Claim(DropGuard)
    case Ready => Look(OpenLock)
    case LockOpened(_) => Look(TakeSetup)
    case Lookup(_) => Look(FindNone(0))
    case WaitShared(_, _) => Look(TakeShared)
    case CheckHit(_, v) => Look(if EntryOf(d, v).complete then Hit(0) else StaleEntry(0))
    case Copying(_, _, left, _) => Look(if left > 0 then CopyFile else CopyDone)
    case HitSetup => Extend(NoExtensions)
    case HookOpened(_) => Extend(TakeHookLock(0))
    case MissSetup(_, left) => Populate(if left > 0 then SetupWrite else SetupDone(0))
    case PopulateCheck(_, _) => Populate(SkipPopulate(0))
    case WaitExclusive(_, _) => Populate(TakeExclusive)
    case Recheck(_, v) => Populate(if EntryOf(d, v).complete then FilledMeanwhile(0) else BeginPopulate(0))
    case Populating(_, _, left) => Populate(if left > 0 then PopulateFile(false) else WriteMarker(0))
    case Hook(_, _, todo) => Extend(if todo > 0 then NextArchive(0) else HookDone)
    case WaitArchive(_, _, _, _) => Extend(TakeArchive)
    case Fetching(_, _, _, _) => Extend(Fetched(0))
    case Installing(_, _, left, _) => Extend(if left > 0 then InstallFile else ArchiveInstalled)
    case Starting(_) => End(Started)
    case Running => End(StopOnly)
    case Stopping(_) => Clean(if GuardOf(pl).Some? then TakeCleanupGuard else SkipGuard(0))
    case Planning(_) => Clean(if HasLivePeer(c, s, p) then KeepInstall else Probe(0))
    case Removing(left, _) => Clean(if left > 0 then RemoveEntry(false) else RemovalEnds)
    case Stopped => End(Exit)
    case Failed => End(Exit)
    case Gone => End(Die)
  }

  lemma {:induction false} NextActionWants(c: Config, s: State, p: Pid)
    requires p in s.procs && p in c.place && !s.procs[p].phase.Gone?
    ensures var f := EffectOf(c, s, p, NextAction(c, s, p));
      && f.Some?
      && (f.value.take == Wanted(c.place[p], s.procs[p].phase) || f.value.take == Some(Slot))
      && !IsFault(NextAction(c, s, p))
  {}

  /** A process whose wanted lock is free can move. */
  lemma {:induction false} UnblockedMoves(c: Config, s: State, p: Pid) returns (e: Event)
    requires p in s.procs && p in c.place && !s.procs[p].phase.Gone?
    requires var w := Wanted(c.place[p], s.procs[p].phase); w.Some? ==> Free(s, w.value)
    ensures Enabled(c, s, e) && !IsFault(e.action)
  {
    NextActionWants(c, s, p);
    e := Event(p, NextAction(c, s, p));
  }

  /** How deep in the lock order a wanted lock is: claim guard, setup lock, cache locks. */
  function Depth(w: Option<Lock>): nat {
    match w
    case None => 0
    case Some(Entry(_, _)) => 1
    case Some(Archive(_)) => 1
    case Some(Setup(_)) => 2
    case Some(_) => 3
  }

  /** Whoever holds a lock that another wants is not gone and wants only a deeper one. */
  lemma {:induction false} HolderIsDeeper(pl: Place, ph: Phase, h: Held, w: Lock)
    requires InScope(pl, ph, h) && Blocks(h, w)
    ensures !ph.Gone? && Depth(Wanted(pl, ph)) < Depth(Some(w))
  {}

  lemma {:induction false} SomeoneMoves(c: Config, s: State, p: Pid) returns (e: Event)
    requires LocksFollowScopes(c, s) && p in s.procs && !s.procs[p].phase.Gone?
    ensures Enabled(c, s, e) && !IsFault(e.action)
    decreases Depth(Wanted(c.place[p], s.procs[p].phase))
  {
    var w := Wanted(c.place[p], s.procs[p].phase);
    if w.Some? && !Free(s, w.value) {
      var q :| q in s.procs && Blocks(s.procs[q].held, w.value);
      HolderIsDeeper(c.place[q], s.procs[q].phase, s.procs[q].held, w.value);
      e := SomeoneMoves(c, s, q);
    } else {
      e := UnblockedMoves(c, s, p);
    }
  }

  // ----- Every run is finite -----

  /** The steps of one archive: wait, fetch, place its files, go on. */
  function PerArchive(c: Config): nat { c.work + 4 }

  function HookRank(c: Config, todo: nat): nat {
    if todo == 0 then 10 + 2 * c.work else HookRank(c, todo - 1) + PerArchive(c)
  }

  function MissRank(c: Config): nat { HookRank(c, c.archives) + 6 + 2 * c.work }

  /** What is left after one round of cleanup. */
  function CleanedRank(c: Config, again: bool): nat { if again then 4 + c.work else 1 }

  /** A bound on the steps a process can still take. */
  function Rank(c: Config, ph: Phase): nat {
    match ph
    case Gone => 0
    case Failed => 1
    case Stopped => 1
    case Removing(left, again) => CleanedRank(c, again) + 1 + left
    case Planning(again) => CleanedRank(c, again) + 2 + c.work
    case Stopping(again) => CleanedRank(c, again) + 3 + c.work
    case Running => 8 + 2 * c.work
    case Starting(_) => 9 + 2 * c.work
    case Hook(_, _, todo) => HookRank(c, todo)
    case Installing(_, _, left, todo) => HookRank(c, todo) + 1 + left
    case Fetching(_, _, _, todo) => HookRank(c, todo) + 2 + c.work
    case WaitArchive(_, _, _, todo) => HookRank(c, todo) + 3 + c.work
    case HookOpened(_) => HookRank(c, c.archives) + 1
    case HitSetup => HookRank(c, c.archives) + 2
    case Populating(_, _, left) => HookRank(c, c.archives) + 1 + left
    case Recheck(_, _) => HookRank(c, c.archives) + 2 + c.work
    case WaitExclusive(_, _) => HookRank(c, c.archives) + 3 + c.work
    case PopulateCheck(_, _) => HookRank(c, c.archives) + 4 + c.work
    case MissSetup(_, left) => HookRank(c, c.archives) + 5 + c.work + left
    case Copying(_, _, left, _) => MissRank(c) + left
    case CheckHit(_, _) => MissRank(c) + 1 + c.work
    case WaitShared(_, _) => MissRank(c) + 2 + c.work
    case Lookup(_) => MissRank(c) + 3 + c.work
    case LockOpened(_) => MissRank(c) + 4 + c.work
    case Ready => MissRank(c) + 5 + c.work
    case SlotTaken => MissRank(c) + 6 + c.work
    case Sweeping => MissRank(c) + 7 + c.work
    case Idle => MissRank(c) + 8 + c.work
  }

  lemma {:induction false} HookRankGrows(c: Config, m: nat, n: nat)
    requires m <= n
    ensures HookRank(c, m) <= HookRank(c, n)
  {
    if m < n { HookRankGrows(c, m, n - 1); }
  }

  lemma {:induction false} HookRankIsLarge(c: Config, todo: nat)
    ensures HookRank(c, todo) >= 10 + 2 * c.work
  {
    HookRankGrows(c, 0, todo);
  }

  lemma {:induction false} ClaimFalls(c: Config, pl: Place, ph: Phase, h: Held, d: Disk, a: ClaimAction)
    ensures var f := ClaimEffect(c, pl, ph, h, d, a); f.Some? ==> Rank(c, f.value.phase) < Rank(c, ph)
  {}

  lemma {:induction false} EndFalls(c: Config, ph: Phase, h: Held, d: Disk, a: EndAction)
    ensures var f := EndEffect(ph, h, d, a); f.Some? ==> Rank(c, f.value.phase) < Rank(c, ph)
  {
    HookRankIsLarge(c, if ph.Hook? || ph.Installing? || ph.Fetching? || ph.WaitArchive? then ph.todo else c.archives);
  }

  lemma {:induction false} CleanFalls(c: Config, pl: Place, peer: bool, ph: Phase, h: Held, d: Disk, a: CleanAction)
    ensures var f := CleanEffect(c, pl, peer, ph, h, d, a); f.Some? ==> Rank(c, f.value.phase) < Rank(c, ph)
  {}

  lemma {:induction false} LookupFalls(c: Config, t: Tree, ph: Phase, h: Held, d: Disk, a: LookupAction)
    ensures var f := LookupEffect(c, t, ph, h, d, a); f.Some? ==> Rank(c, f.value.phase) < Rank(c, ph)
  {}

  lemma {:induction false} PopulateFalls(c: Config, ph: Phase, h: Held, d: Disk, a: PopulateAction)
    ensures var f := PopulateEffect(c, ph, h, d, a); f.Some? ==> Rank(c, f.value.phase) < Rank(c, ph)
  {
    forall e: nat | e <= c.archives ensures HookRank(c, e) <= HookRank(c, c.archives) {
      HookRankGrows(c, e, c.archives);
    }
  }

  predicate IsArchiveStep(a: HookAction) {
    a.NextArchive? || a.TakeArchive? || a.Fetched? || a.InstallFile? || a.ArchiveInstalled?
  }

  lemma {:induction false} ArchiveFalls(c: Config, t: Tree, ph: Phase, h: Held, d: Disk, a: HookAction)
    requires IsArchiveStep(a)
    ensures var f := HookEffect(c, t, ph, h, d, a); f.Some? ==> Rank(c, f.value.phase) < Rank(c, ph)
  {}

  lemma {:induction false} HookFalls(c: Config, t: Tree, ph: Phase, h: Held, d: Disk, a: HookAction)
    requires !IsArchiveStep(a)
    ensures var f := HookEffect(c, t, ph, h, d, a); f.Some? ==> Rank(c, f.value.phase) < Rank(c, ph)
  {
    match a
    case TakeHookLock(e) =>
      if e <= c.archives { HookRankGrows(c, e, c.archives); }
    case NoExtensions => HookRankIsLarge(c, c.archives);
    case _ =>
  }

  lemma {:induction false} StepFalls(c: Config, s: State, p: Pid, a: Action)
    requires p in s.procs && p in c.place && EffectOf(c, s, p, a).Some?
    ensures Rank(c, EffectOf(c, s, p, a).value.phase) < Rank(c, s.procs[p].phase)
  {
    var ph, h, d := s.procs[p].phase, s.procs[p].held, s.disk;
    match a
    case Claim(x) => ClaimFalls(c, c.place[p], ph, h, d, x);
    case Look(x) => LookupFalls(c, c.place[p].tree, ph, h, d, x);
    case Populate(x) => PopulateFalls(c, ph, h, d, x);
    case Extend(x) =>
      if IsArchiveStep(x) {
        ArchiveFalls(c, c.place[p].tree, ph, h, d, x);
      } else {
        HookFalls(c, c.place[p].tree, ph, h, d, x);
      }
    case End(x) => EndFalls(c, ph, h, d, x);
    case Clean(x) => CleanFalls(c, c.place[p], HasLivePeer(c, s, p), ph, h, d, x);
  }

  /** The sum of the ranks of `ps`. */
  ghost function Total(c: Config, s: State, ps: set<Pid>): nat
    requires ps <= s.procs.Keys
  {
    if ps == {} then 0
    else var p :| p in ps; Rank(c, s.procs[p].phase) + Total(c, s, ps - {p})
  }

  lemma {:induction false} TotalWithout(c: Config, s: State, ps: set<Pid>, p: Pid)
    requires ps <= s.procs.Keys && p in ps
    ensures Total(c, s, ps) == Rank(c, s.procs[p].phase) + Total(c, s, ps - {p})
  {
    var q :| q in ps && Total(c, s, ps) == Rank(c, s.procs[q].phase) + Total(c, s, ps - {q});
    if q != p {
      TotalWithout(c, s, ps - {q}, p);
      TotalWithout(c, s, ps - {p}, q);
      assert ps - {q} - {p} == ps - {p} - {q};
    }
  }

  lemma {:induction false} TotalUnchanged(c: Config, s: State, s': State, ps: set<Pid>)
    requires ps <= s.procs.Keys && ps <= s'.procs.Keys && forall p :: p in ps ==> s.procs[p] == s'.procs[p]
    ensures Total(c, s, ps) == Total(c, s', ps)
  {
    if ps != {} {
      var p :| p in ps;
      TotalWithout(c, s, ps, p);
      TotalWithout(c, s', ps, p);
      TotalUnchanged(c, s, s', ps - {p});
    }
  }

  lemma {:induction false} TotalFalls(c: Config, s: State, e: Event)
    requires Enabled(c, s, e)
    ensures Total(c, Do(c, s, e), Do(c, s, e).procs.Keys) < Total(c, s, s.procs.Keys)
  {
    var s', p := Do(c, s, e), e.pid;
    StepFalls(c, s, p, e.action);
    assert s'.procs.Keys == s.procs.Keys;
    TotalWithout(c, s, s.procs.Keys, p);
    TotalWithout(c, s', s.procs.Keys, p);
    TotalUnchanged(c, s, s', s.procs.Keys - {p});
  }

  // ----- Main results -----

  /** No process ever waits for a lock that it holds itself, the hook included. */
  lemma {:induction false} NeverWaitsForItself(c: Config, s: State, p: Pid)
    requires Reachable(c, s) && p in s.procs
    ensures p in c.place
    ensures var w := Wanted(c.place[p], s.procs[p].phase);
      w.Some? ==> !Blocks(s.procs[p].held, w.value)
  {
    ReachableInv(c, s);
  }

  lemma {:induction false} GoneStaysGone(c: Config, s: State, e: Event)
    requires Enabled(c, s, e)
    ensures !s.procs[e.pid].phase.Gone?
  {
    StepFalls(c, s, e.pid, e.action);
  }

  /** A run can be continued without a fault or a death exactly until every process
      has finished and exited, so a maximal fault-free run finishes them all. */
  lemma {:induction false} StuckOnlyWhenFinished(c: Config, s: State)
    requires Reachable(c, s)
    ensures (exists e :: Enabled(c, s, e) && !IsFault(e.action)) <==> (exists p :: p in s.procs && !s.procs[p].phase.Gone?)
  {
    ReachableInv(c, s);
    if p :| p in s.procs && !s.procs[p].phase.Gone? {
      var e := SomeoneMoves(c, s, p);
    }
    if e :| Enabled(c, s, e) && !IsFault(e.action) {
      GoneStaysGone(c, s, e);
    }
  }

  /** Every run, with deaths or without, is at most as long as the ranks it starts with. */
  lemma {:induction false} RunsAreFinite(c: Config, s: State, es: seq<Event>, s': State)
    requires Runs(c, s, es, s')
    ensures |es| + Total(c, s', s'.procs.Keys) <= Total(c, s, s.procs.Keys)
    decreases |es|
  {
    if es != [] {
      TotalFalls(c, s, es[0]);
      RunsAreFinite(c, Do(c, s, es[0]), es[1..], s');
    }
  }
}
