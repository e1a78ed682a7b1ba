// Safety of the install-tree protocol over every run.

module InstallSafety {
  import opened InstallProtocol
  import opened Options

  /** Every process holds exactly the locks its phase's scopes own. */
  ghost predicate LocksFollowScopes(c: Config, s: State) {
    forall p :: p in s.procs ==>
      p in c.place && InScope(c.place[p], s.procs[p].phase, s.procs[p].held)
  }

  /** `h` are the locks of the phase's scopes, only a slotted start claims a slot, and
      only a cleanup with a guard probes. */
  predicate InScope(pl: Place, ph: Phase, h: Held) {
    && h == ScopeLocks(pl, ph)
    && (ph.Sweeping? || ph.SlotTaken? ==> pl.Slotted?)
    && (ph.Planning? ==> GuardOf(pl).Some?)
  }

  predicate Clash(h: Held, g: Held) {
    || (h.guard.Some? && h.guard == g.guard)
    || (h.setup.Some? && h.setup == g.setup)
    || (h.entry.Some? && g.entry.Some? && h.entry.value.0 == g.entry.value.0 && (h.entry.value.1 || g.entry.value.1))
    || (h.archive.Some? && h.archive == g.archive)
  }

  ghost predicate NoClash(s: State) {
    forall p, q :: p in s.procs && q in s.procs && p != q ==> !Clash(s.procs[p].held, s.procs[q].held)
  }

  /** `p` has a slot, and every other process on its tree cleans up under the guard of
      its slot parent and so looks for its slot. */
  ghost predicate IsProtected(c: Config, p: Pid)
    requires p in c.place
  {
    c.place[p].Slotted? &&
    forall q :: q in c.place && q != p && c.place[q].tree == c.place[p].tree ==> IsPeer(c.place[q], c.place[p])
  }

  /** Every protected start that opened the setup lock has open the inode its path names. */
  ghost predicate CurrentInode(c: Config, s: State) {
    forall p :: p in s.procs && p in c.place && IsProtected(c, p) && OpenFd(s.procs[p].phase).Some? ==>
      && c.place[p].tree in s.disk.lockFile
      && s.disk.lockFile[c.place[p].tree] == OpenFd(s.procs[p].phase).value
  }

  /** A removal of an install tree has no live peer under its guard. */
  ghost predicate RemovalAlone(c: Config, s: State) {
    forall p :: p in s.procs && p in c.place && s.procs[p].phase.Removing? ==> !HasLivePeer(c, s, p)
  }

  /** A cache entry is finished at most once, and not while it is populated; a process that
      copies one copies an entry with its marker that has not changed since the check. */
  ghost predicate CacheSound(c: Config, s: State) {
    && (forall v :: IsSoundEntry(c, EntryOf(s.disk, v)))
    && (forall p :: p in s.procs && s.procs[p].phase.Populating? ==>
          EntryOf(s.disk, s.procs[p].phase.version).finished == 0)
    && (forall p :: p in s.procs && s.procs[p].phase.Copying? ==>
          s.procs[p].phase.stamp.complete && EntryOf(s.disk, s.procs[p].phase.version) == s.procs[p].phase.stamp)
  }

  ghost predicate Inv(c: Config, s: State) {
    && LocksFollowScopes(c, s) && NoClash(s) && CurrentInode(c, s) && RemovalAlone(c, s) && CacheSound(c, s)
  }

  // ----- One step keeps the invariant -----

  /** What one effect does to its own process's locks: it keeps a part, takes at
      most one, and ends with exactly the new phase's scopes. */
  lemma {:induction false} EffectLocks(c: Config, s: State, e: Event)
    requires LocksFollowScopes(c, s) && Enabled(c, s, e)
    ensures LocksFollowScopes(c, Do(c, s, e))
  {
    var p, a := e.pid, e.action;
    var ph, h, d, pl := s.procs[p].phase, s.procs[p].held, s.disk, c.place[p];
    match a
    case Claim(x) => ClaimLocks(c, pl, ph, h, d, x);
    case Look(x) => LookupLocks(c, pl, ph, h, d, x);
    case Populate(x) => PopulateLocks(c, pl, ph, h, d, x);
    case Extend(x) => HookLocks(c, pl, ph, h, d, x);
    case End(x) => EndLocks(pl, ph, h, d, x);
    case Clean(x) => CleanLocks(c, pl, HasLivePeer(c, s, p), ph, h, d, x);
  }

  predicate EndsInScope(pl: Place, f: Effect) {
    InScope(pl, f.phase, LocksAfter(f))
  }

  lemma {:induction false} ClaimLocks(c: Config, pl: Place, ph: Phase, h: Held, d: Disk, a: ClaimAction)
    requires InScope(pl, ph, h)
    ensures var f := ClaimEffect(c, pl, ph, h, d, a); f.Some? ==> EndsInScope(pl, f.value)
  {}
  lemma {:induction false} LookupLocks(c: Config, pl: Place, ph: Phase, h: Held, d: Disk, a: LookupAction)
    requires InScope(pl, ph, h)
    ensures var f := LookupEffect(c, pl.tree, ph, h, d, a); f.Some? ==> EndsInScope(pl, f.value)
  {}
  lemma {:induction false} PopulateLocks(c: Config, pl: Place, ph: Phase, h: Held, d: Disk, a: PopulateAction)
    requires InScope(pl, ph, h)
    ensures var f := PopulateEffect(c, ph, h, d, a); f.Some? ==> EndsInScope(pl, f.value)
  {}
  lemma {:induction false} HookLocks(c: Config, pl: Place, ph: Phase, h: Held, d: Disk, a: HookAction)
    requires InScope(pl, ph, h)
    ensures var f := HookEffect(c, pl.tree, ph, h, d, a); f.Some? ==> EndsInScope(pl, f.value)
  {}
  lemma {:induction false} EndLocks(pl: Place, ph: Phase, h: Held, d: Disk, a: EndAction)
    requires InScope(pl, ph, h)
    ensures var f := EndEffect(ph, h, d, a); f.Some? ==> EndsInScope(pl, f.value)
  {}
  lemma {:induction false} CleanLocks(c: Config, pl: Place, peer: bool, ph: Phase, h: Held, d: Disk, a: CleanAction)
    requires InScope(pl, ph, h)
    ensures var f := CleanEffect(c, pl, peer, ph, h, d, a); f.Some? ==> EndsInScope(pl, f.value)
  {}

  /** The locks of `small` are among those of `big`. */
  predicate Within(small: Held, big: Held) {
    && (small.guard.Some? ==> small.guard == big.guard)
    && (small.slot ==> big.slot)
    && (small.setup.Some? ==> small.setup == big.setup)
    && (small.entry.Some? ==> small.entry == big.entry)
    && (small.archive.Some? ==> small.archive == big.archive)
  }

  lemma {:induction false} KeepsOnly(c: Config, s: State, p: Pid, a: Action)
    requires p in s.procs && p in c.place && EffectOf(c, s, p, a).Some?
    ensures Within(EffectOf(c, s, p, a).value.kept, s.procs[p].held)
  {}

  /** Keeping locks and taking one that the other side does not block creates no clash. */
  lemma {:induction false} NoClashAfter(h: Held, f: Effect, g: Held)
    requires Within(f.kept, h) && !Clash(h, g)
    requires f.take.Some? ==> !Blocks(g, f.take.value)
    ensures !Clash(LocksAfter(f), g) && !Clash(g, LocksAfter(f))
  {}

  lemma {:induction false} NoNewClash(s: State, p: Pid, f: Effect)
    requires p in s.procs && NoClash(s) && Within(f.kept, s.procs[p].held)
    requires f.take.Some? ==> Free(s, f.take.value)
    ensures NoClash(Apply(s, p, f))
  {
    forall q | q in s.procs && q != p
      ensures !Clash(LocksAfter(f), s.procs[q].held) && !Clash(s.procs[q].held, LocksAfter(f))
    {
      NoClashAfter(s.procs[p].held, f, s.procs[q].held);
    }
  }

  /** `d'` is `d` with one more file in the entry, or the entry finished. */
  predicate IsPopulated(c: Config, d: Disk, v: Version, d': Disk) {
    d' == CopyInto(d, v, false) || (c.carriesMarker && d' == CopyInto(d, v, true)) || d' == FinishEntry(d, v)
  }

  /** Who changes what on disk: only a removal unlinks a lock file, and only its own
      tree's; only opening creates one; only a population touches a cache entry. */
  lemma {:induction false} DiskChange(c: Config, s: State, p: Pid, a: Action)
    requires p in s.procs && p in c.place && EffectOf(c, s, p, a).Some?
    ensures var t, d, d', ph := c.place[p].tree, s.disk, EffectOf(c, s, p, a).value.disk, s.procs[p].phase;
      && d.nextInode <= d'.nextInode
      && (forall o :: o in d.lockFile && (o != t || !ph.Removing?) ==> o in d'.lockFile && d'.lockFile[o] == d.lockFile[o])
      && (d'.cache != d.cache ==> ph.Populating? && IsPopulated(c, d, ph.version, d'))
  {}

  /** A start that has just opened the setup lock has open what its path names. */
  lemma {:induction false} OpensCurrent(c: Config, s: State, p: Pid, a: Action)
    requires p in s.procs && p in c.place && EffectOf(c, s, p, a).Some?
    ensures var f := EffectOf(c, s, p, a).value;
      OpenFd(f.phase).Some? ==>
        || OpenFd(f.phase) == OpenFd(s.procs[p].phase)
        || (c.place[p].tree in f.disk.lockFile && f.disk.lockFile[c.place[p].tree] == OpenFd(f.phase).value)
  {}

  lemma {:induction false} RemovalOpensNothing(c: Config, s: State, p: Pid, a: Action)
    requires p in s.procs && p in c.place && EffectOf(c, s, p, a).Some? && s.procs[p].phase.Removing?
    ensures OpenFd(EffectOf(c, s, p, a).value.phase) == None
  {}

  lemma {:induction false} StaysCurrent(c: Config, s: State, p: Pid, f: Effect)
    requires p in s.procs && LocksFollowScopes(c, s) && CurrentInode(c, s) && RemovalAlone(c, s)
    requires forall o :: o in s.disk.lockFile && (o != c.place[p].tree || !s.procs[p].phase.Removing?) ==>
      o in f.disk.lockFile && f.disk.lockFile[o] == s.disk.lockFile[o]
    requires s.procs[p].phase.Removing? ==> OpenFd(f.phase) == None
    requires OpenFd(f.phase).Some? ==>
      || OpenFd(f.phase) == OpenFd(s.procs[p].phase)
      || (c.place[p].tree in f.disk.lockFile && f.disk.lockFile[c.place[p].tree] == OpenFd(f.phase).value)
    ensures CurrentInode(c, Apply(s, p, f))
  {
    forall q | q in s.procs && q != p && q in c.place && IsProtected(c, q) && OpenFd(s.procs[q].phase).Some?
      ensures c.place[q].tree in f.disk.lockFile && f.disk.lockFile[c.place[q].tree] == OpenFd(s.procs[q].phase).value
    {
      // Its slot is held, so nobody removes its tree.
      assert s.procs[q].held.slot;
      if c.place[p].tree == c.place[q].tree { assert IsPeer(c.place[p], c.place[q]); }
    }
  }

  /** Removing begins only at a probe that saw no peer, or with no guard and so no peers;
      and a slot is taken only under the guard. */
  lemma {:induction false} SlotOrRemoval(c: Config, s: State, p: Pid, a: Action)
    requires p in s.procs && p in c.place && EffectOf(c, s, p, a).Some?
    ensures var f := EffectOf(c, s, p, a).value;
      && (f.phase.Removing? ==> s.procs[p].phase.Removing? || !HasLivePeer(c, s, p))
      && (f.take == Some(Slot) ==> s.procs[p].phase.Sweeping?)
  {}

  /** A slot appears only under the claim guard, which a removal that looks for it holds. */
  lemma {:induction false} NoSlotDuringRemoval(c: Config, s: State, p: Pid, f: Effect, q: Pid)
    requires p in s.procs && q in s.procs && q != p && LocksFollowScopes(c, s) && NoClash(s)
    requires IsPeer(c.place[q], c.place[p]) && s.procs[q].phase.Removing?
    requires Within(f.kept, s.procs[p].held) && !s.procs[p].held.slot
    requires f.take == Some(Slot) ==> s.procs[p].phase.Sweeping?
    ensures !LocksAfter(f).slot
  {
    assert !Clash(s.procs[p].held, s.procs[q].held);
  }

  lemma {:induction false} StaysAlone(c: Config, s: State, p: Pid, f: Effect)
    requires p in s.procs && LocksFollowScopes(c, s) && NoClash(s) && RemovalAlone(c, s)
    requires Within(f.kept, s.procs[p].held)
    requires f.phase.Removing? ==> s.procs[p].phase.Removing? || !HasLivePeer(c, s, p)
    requires f.take == Some(Slot) ==> s.procs[p].phase.Sweeping?
    ensures RemovalAlone(c, Apply(s, p, f))
  {
    var s' := Apply(s, p, f);
    forall q | q in s.procs && q in c.place && s'.procs[q].phase.Removing?
      ensures !HasLivePeer(c, s', q)
    {
      assert !HasLivePeer(c, s, q);
      if q != p && IsPeer(c.place[q], c.place[p]) && !s.procs[p].held.slot {
        NoSlotDuringRemoval(c, s, p, f, q);
      }
    }
  }

  /** What an effect does to the cache keeps it sound for every other process. */
  lemma {:induction false} StaysSound(c: Config, s: State, p: Pid, f: Effect)
    requires p in s.procs && LocksFollowScopes(c, s) && NoClash(s) && CacheSound(c, s)
    requires f.disk.cache != s.disk.cache ==>
      s.procs[p].phase.Populating? && IsPopulated(c, s.disk, s.procs[p].phase.version, f.disk)
    requires f.phase.Populating? ==> EntryOf(f.disk, f.phase.version).finished == 0
    requires f.phase.Copying? ==> f.phase.stamp.complete && EntryOf(f.disk, f.phase.version) == f.phase.stamp
    ensures CacheSound(c, Apply(s, p, f))
  {
    forall q | q in s.procs && q != p && (s.procs[q].phase.Copying? || s.procs[q].phase.Populating?)
      ensures EntryOf(f.disk, s.procs[q].phase.version) == EntryOf(s.disk, s.procs[q].phase.version)
    {
      assert !Clash(s.procs[p].held, s.procs[q].held);
    }
    forall v
      ensures IsSoundEntry(c, EntryOf(f.disk, v))
    {
      assert IsSoundEntry(c, EntryOf(s.disk, v));
    }
  }

  /** A process enters or stays in a copy or a population only over an entry in the right state. */
  lemma {:induction false} BeginsSound(c: Config, s: State, p: Pid, a: Action)
    requires p in s.procs && p in c.place && EffectOf(c, s, p, a).Some? && CacheSound(c, s)
    ensures var f := EffectOf(c, s, p, a).value;
      && (f.phase.Populating? ==> EntryOf(f.disk, f.phase.version).finished == 0)
      && (f.phase.Copying? ==> f.phase.stamp.complete && EntryOf(f.disk, f.phase.version) == f.phase.stamp)
  {
    if s.procs[p].phase.Recheck? { assert IsSoundEntry(c, EntryOf(s.disk, s.procs[p].phase.version)); }
  }

  lemma {:induction false} StepKeepsInv(c: Config, s: State, e: Event)
    requires Inv(c, s) && Enabled(c, s, e)
    ensures Inv(c, Do(c, s, e))
  {
    var p, a := e.pid, e.action;
    EffectLocks(c, s, e);
    KeepsOnly(c, s, p, a);
    NoNewClash(s, p, EffectOf(c, s, p, a).value);
    DiskChange(c, s, p, a);
    OpensCurrent(c, s, p, a);
    if s.procs[p].phase.Removing? { RemovalOpensNothing(c, s, p, a); }
    StaysCurrent(c, s, p, EffectOf(c, s, p, a).value);
    SlotOrRemoval(c, s, p, a);
    StaysAlone(c, s, p, EffectOf(c, s, p, a).value);
    BeginsSound(c, s, p, a);
    StaysSound(c, s, p, EffectOf(c, s, p, a).value);
  }

  // ----- Every reachable state -----

  lemma {:induction false} RunsKeepInv(c: Config, s: State, es: seq<Event>, s': State)
    requires Inv(c, s) && Runs(c, s, es, s')
    ensures Inv(c, s')
    decreases |es|
  {
    if es != [] {
      StepKeepsInv(c, s, es[0]);
      RunsKeepInv(c, Do(c, s, es[0]), es[1..], s');
    }
  }

  lemma {:induction false} InitInv(c: Config, s: State)
    requires Init(c, s)
    ensures Inv(c, s)
  {}

  lemma {:induction false} ReachableInv(c: Config, s: State)
    requires Reachable(c, s)
    ensures Inv(c, s)
  {
    var init, es :| Init(c, init) && Runs(c, init, es, s);
    InitInv(c, init);
    RunsKeepInv(c, init, es, s);
  }

  lemma {:induction false} RunsAppend(c: Config, s: State, es: seq<Event>, s': State, e: Event)
    requires Runs(c, s, es, s') && Enabled(c, s', e)
    ensures Runs(c, s, es + [e], Do(c, s', e))
    decreases |es|
  {
    if es == [] {
      assert Runs(c, Do(c, s, e), [], Do(c, s, e));
    } else {
      RunsAppend(c, Do(c, s, es[0]), es[1..], s', e);
      assert (es + [e])[1..] == es[1..] + [e];
    }
  }

  lemma {:induction false} ReachableStep(c: Config, s: State, e: Event)
    requires Reachable(c, s) && Enabled(c, s, e)
    ensures Reachable(c, Do(c, s, e))
  {
    var init, es :| Init(c, init) && Runs(c, init, es, s);
    RunsAppend(c, init, es, s, e);
  }

  lemma {:induction false} RunsStayReachable(c: Config, s: State, es: seq<Event>, s': State)
    requires Reachable(c, s) && Runs(c, s, es, s')
    ensures Reachable(c, s')
    decreases |es|
  {
    if es != [] {
      ReachableStep(c, s, es[0]);
      RunsStayReachable(c, Do(c, s, es[0]), es[1..], s');
    }
  }

  // ----- Main results -----

  ghost predicate OnSameTree(c: Config, s: State, p: Pid, q: Pid) {
    p in s.procs && q in s.procs && p in c.place && q in c.place && p != q && c.place[p].tree == c.place[q].tree
  }

  /** Two processes write one install tree at once only if one of them is a start that is
      not protected, or both are removals with no guard in common. */
  lemma {:induction false} TreeWritersExclude(c: Config, s: State, p: Pid, q: Pid)
    requires Reachable(c, s) && OnSameTree(c, s, p, q)
    requires TreeWriting(s.procs[p].phase) && TreeWriting(s.procs[q].phase)
    ensures
      || (StartWriting(s.procs[p].phase) && !IsProtected(c, p))
      || (StartWriting(s.procs[q].phase) && !IsProtected(c, q))
      || (s.procs[p].phase.Removing? && s.procs[q].phase.Removing? &&
          (GuardOf(c.place[p]) == None || GuardOf(c.place[p]) != GuardOf(c.place[q])))
  {
    ReachableInv(c, s);
    assert !Clash(s.procs[p].held, s.procs[q].held);
    assert s.procs[p].phase.Removing? ==> !HasLivePeer(c, s, p);
    assert s.procs[q].phase.Removing? ==> !HasLivePeer(c, s, q);
    assert IsProtected(c, p) ==> IsPeer(c.place[q], c.place[p]);
    assert IsProtected(c, q) ==> IsPeer(c.place[p], c.place[q]);
  }

  /** While a full cleanup removes a tree, every process whose slot it looks for has not
      claimed it yet or is gone. */
  lemma {:induction false} RemovalSeesNoPeer(c: Config, s: State, p: Pid, q: Pid)
    requires Reachable(c, s) && p in s.procs && q in s.procs && p in c.place && q in c.place && p != q
    requires s.procs[p].phase.Removing? && IsPeer(c.place[p], c.place[q])
    ensures s.procs[q].phase.Idle? || s.procs[q].phase.Gone?
  {
    ReachableInv(c, s);
    assert !Clash(s.procs[p].held, s.procs[q].held);
    assert !HasLivePeer(c, s, p);
  }

  /** A protected start that holds or waits for the setup lock has open the inode the path
      names, although a cleanup may have unlinked an earlier one. */
  lemma {:induction false} ProtectedStartHoldsCurrentInode(c: Config, s: State, p: Pid)
    requires Reachable(c, s) && p in s.procs && p in c.place && IsProtected(c, p) && OpenFd(s.procs[p].phase).Some?
    ensures c.place[p].tree in s.disk.lockFile
    ensures s.disk.lockFile[c.place[p].tree] == OpenFd(s.procs[p].phase).value
  {
    ReachableInv(c, s);
  }

  /** No cache entry is ever finished twice, by any processes of any trees; and it carries
      the marker exactly when it was finished, unless a copied tree brought one along. */
  lemma {:induction false} EntryFinishedOnce(c: Config, s: State, v: Version)
    requires Reachable(c, s)
    ensures EntryOf(s.disk, v).finished <= 1
    ensures EntryOf(s.disk, v).finished == 1 ==> EntryOf(s.disk, v).complete
    ensures !c.carriesMarker ==> (EntryOf(s.disk, v).complete <==> EntryOf(s.disk, v).finished == 1)
  {
    ReachableInv(c, s);
    assert IsSoundEntry(c, EntryOf(s.disk, v));
  }

  /** Whoever writes an entry of the cache is alone with it, readers excluded; and one
      archive is fetched by one process at a time. */
  lemma {:induction false} CacheWritersExclude(c: Config, s: State, p: Pid, q: Pid)
    requires Reachable(c, s) && p in s.procs && q in s.procs && p != q
    ensures var w, r := s.procs[p].phase, s.procs[q].phase;
      && (w.Populating? || w.Recheck? ==>
            !((r.Populating? || r.Recheck? || r.Copying? || r.CheckHit?) && r.version == w.version))
      && (w.Fetching? && r.Fetching? ==> w.digest != r.digest)
  {
    ReachableInv(c, s);
    assert !Clash(s.procs[p].held, s.procs[q].held);
  }

  lemma {:induction false} CopyGoesOn(c: Config, s: State, e: Event, p: Pid)
    requires Enabled(c, s, e) && p in s.procs && s.procs[p].phase.Copying?
    requires e.pid == p ==> e.action == Look(CopyFile)
    ensures var ph, s' := s.procs[p].phase, Do(c, s, e);
      p in s'.procs && s'.procs[p].phase.Copying? &&
      s'.procs[p].phase.version == ph.version && s'.procs[p].phase.stamp == ph.stamp
  {}

  lemma {:induction false} CopiedEntry(c: Config, s: State, p: Pid)
    requires Reachable(c, s) && p in s.procs && s.procs[p].phase.Copying?
    ensures EntryOf(s.disk, s.procs[p].phase.version) == s.procs[p].phase.stamp && s.procs[p].phase.stamp.complete
    ensures !c.carriesMarker ==> s.procs[p].phase.stamp.finished == 1
  {
    ReachableInv(c, s);
    assert IsSoundEntry(c, EntryOf(s.disk, s.procs[p].phase.version));
  }

  /** Whatever the others do meanwhile, a reader copies one entry with its marker that stays
      as it was from the first file of the copy to the last; it is a finished entry unless
      a copied tree brought the marker along. */
  lemma {:induction false} CopySeesOneEntry(c: Config, s: State, es: seq<Event>, s': State, p: Pid)
    requires Reachable(c, s) && p in s.procs && s.procs[p].phase.Copying? && Runs(c, s, es, s')
    requires forall i :: 0 <= i < |es| && es[i].pid == p ==> es[i].action == Look(CopyFile)
    ensures p in s'.procs && s'.procs[p].phase.Copying? && s'.procs[p].phase.version == s.procs[p].phase.version
    ensures s'.procs[p].phase.stamp == s.procs[p].phase.stamp
    ensures var v := s.procs[p].phase.version;
      && EntryOf(s'.disk, v) == EntryOf(s.disk, v) && EntryOf(s'.disk, v).complete
      && (!c.carriesMarker ==> EntryOf(s'.disk, v).finished == 1)
    decreases |es|
  {
    CopiedEntry(c, s, p);
    if es != [] {
      ReachableStep(c, s, es[0]);
      CopyGoesOn(c, s, es[0], p);
      CopySeesOneEntry(c, Do(c, s, es[0]), es[1..], s', p);
      RunsStayReachable(c, s, es, s');
      CopiedEntry(c, s', p);
    }
  }
}
