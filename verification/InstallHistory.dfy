// What a process must have done to be where it is: its own steps in any run.

module InstallHistory {
  import opened InstallProtocol
  import opened InstallSafety
  import opened Options

  /** Work that is done file by file: a copy from the cache, a setup, a population of the
      cache, and the installation of one archive. */
  datatype Work = Copy | Setup | Population | Archive

  /** The work an action begins, and how many files it has. */
  function Begins(a: Action): Option<(Work, nat)> {
    match a
    case Look(Hit(n)) => Some((Copy, n))
    case Look(FindNone(n)) => Some((Work.Setup, n))
    case Look(SharedLockError(n)) => Some((Work.Setup, n))
    case Look(StaleEntry(n)) => Some((Work.Setup, n))
    case Look(CopyFailed(n)) => Some((Work.Setup, n))
    case Populate(BeginPopulate(n)) => Some((Population, n))
    case Extend(Fetched(n)) => Some((Work.Archive, n))
    case _ => None
  }

  /** The work of which an action does one file. */
  function Does(a: Action): Option<Work> {
    match a
    case Look(CopyFile) => Some(Copy)
    case Populate(SetupWrite) => Some(Work.Setup)
    case Populate(PopulateFile(_)) => Some(Population)
    case Extend(InstallFile) => Some(Work.Archive)
    case _ => None
  }

  /** The work an action reports as done. */
  function Ends(a: Action): Option<Work> {
    match a
    case Look(CopyDone) => Some(Copy)
    case Populate(SetupDone(_)) => Some(Work.Setup)
    case Populate(WriteMarker(_)) => Some(Population)
    case Extend(ArchiveInstalled) => Some(Work.Archive)
    case _ => None
  }

  /** The archives that the hook, entered by an action, has to install. */
  function EntersHook(a: Action): Option<nat> {
    match a
    case Extend(TakeHookLock(e)) => Some(e)
    case Populate(SkipPopulate(e)) => Some(e)
    case Populate(ExclusiveLockError(e)) => Some(e)
    case Populate(FilledMeanwhile(e)) => Some(e)
    case Populate(PopulateFailed(e)) => Some(e)
    case Populate(WriteMarker(e)) => Some(e)
    case _ => None
  }

  /** The steps of `p` in `es`. */
  function Own(es: seq<Event>, p: Pid): seq<Action> {
    if es == [] then []
    else
      var last := es[|es| - 1];
      Own(es[..|es| - 1], p) + (if last.pid == p then [last.action] else [])
  }

  ghost predicate IsAmid(own: seq<Action>, w: Work, left: nat, i: nat)
    requires i < |own|
  {
    && Begins(own[i]) == Some((w, |own| - 1 - i + left))
    && forall j :: i < j < |own| ==> Does(own[j]) == Some(w)
  }

  /** The last steps began the work and did its files, all but `left` of them. */
  ghost predicate IsUnderWork(own: seq<Action>, w: Work, left: nat) {
    exists i :: 0 <= i < |own| && IsAmid(own, w, left, i)
  }

  ghost predicate EndsWhole(own: seq<Action>, j: nat)
    requires j < |own|
  {
    Ends(own[j]).Some? ==> IsUnderWork(own[..j], Ends(own[j]).value, 0)
  }

  /** Whatever was reported as done had been begun, and all its files done. */
  ghost predicate IsWhole(own: seq<Action>) {
    forall j :: 0 <= j < |own| ==> EndsWhole(own, j)
  }

  ghost predicate HasDone(own: seq<Action>, w: Work) {
    exists a :: a in own && Ends(a) == Some(w)
  }

  function CountArchives(own: seq<Action>): nat {
    if own == [] then 0
    else CountArchives(own[..|own| - 1]) + (if own[|own| - 1] == Extend(ArchiveInstalled) then 1 else 0)
  }

  ghost predicate HookEntered(own: seq<Action>, todo: nat, i: nat)
    requires i < |own|
  {
    EntersHook(own[i]) == Some(CountArchives(own[i + 1..]) + todo)
  }

  /** The hook was entered, and all but `todo` of its archives were installed since. */
  ghost predicate IsInHook(own: seq<Action>, todo: nat) {
    exists i :: 0 <= i < |own| && HookEntered(own, todo, i)
  }

  // ----- What each phase says about the past -----

  /** The work of a phase and the files left of it. */
  function WorkAt(ph: Phase): Option<(Work, nat)> {
    match ph
    case Copying(_, _, left, _) => Some((Copy, left))
    case MissSetup(_, left) => Some((Work.Setup, left))
    case Populating(_, _, left) => Some((Population, left))
    case Installing(_, _, left, _) => Some((Work.Archive, left))
    case _ => None
  }

  /** The archives left in a phase of the hook, the one at hand included. */
  function HookAt(ph: Phase): Option<nat> {
    match ph
    case Hook(_, _, todo) => Some(todo)
    case WaitArchive(_, _, _, todo) => Some(todo + 1)
    case Fetching(_, _, _, todo) => Some(todo + 1)
    case Installing(_, _, _, todo) => Some(todo + 1)
    case _ => None
  }

  /** The phases from the end of the hook to the end of the cluster. */
  predicate IsServing(ph: Phase) {
    ph.Starting? || ph.Running? || ph.Stopping? || ph.Planning? || ph.Removing? || ph.Stopped?
  }

  /** In the phases between the tree's completion and the start of the server: whether the
      tree was set up, and not copied. */
  function SetUpAt(ph: Phase): Option<bool> {
    match ph
    case HitSetup => Some(false)
    case HookOpened(_) => Some(false)
    case PopulateCheck(_, _) => Some(true)
    case WaitExclusive(_, _) => Some(true)
    case Recheck(_, _) => Some(true)
    case Populating(_, _, _) => Some(true)
    case Hook(_, miss, _) => Some(miss)
    case WaitArchive(_, miss, _, _) => Some(miss)
    case Fetching(_, miss, _, _) => Some(miss)
    case Installing(_, miss, _, _) => Some(miss)
    case Starting(kept) => Some(kept.Some?)
    case _ => None
  }

  predicate IsBeforeTree(ph: Phase) {
    || ph.Idle? || ph.Sweeping? || ph.SlotTaken? || ph.Ready? || ph.LockOpened? || ph.Lookup?
    || ph.WaitShared? || ph.CheckHit? || ph.Copying? || ph.MissSetup?
  }

  /** The tree was completed, by a copy or by a setup. */
  ghost predicate FollowsTree(ph: Phase, own: seq<Action>) {
    && (IsBeforeTree(ph) ==> !HasDone(own, Copy) && !HasDone(own, Work.Setup))
    && (SetUpAt(ph).Some? ==> HasDone(own, if SetUpAt(ph).value then Work.Setup else Copy))
    && (SetUpAt(ph).Some? ==> !HasDone(own, if SetUpAt(ph).value then Copy else Work.Setup))
    && (IsServing(ph) ==> HasDone(own, Copy) || HasDone(own, Work.Setup))
  }

  ghost predicate FollowsWork(ph: Phase, own: seq<Action>) {
    && IsWhole(own)
    && (WorkAt(ph).Some? ==> IsUnderWork(own, WorkAt(ph).value.0, WorkAt(ph).value.1))
  }

  ghost predicate FollowsHook(ph: Phase, own: seq<Action>) {
    && (HookAt(ph).Some? ==> IsInHook(own, HookAt(ph).value))
    && (IsServing(ph) ==> IsInHook(own, 0) || Extend(NoExtensions) in own)
  }

  predicate IsClaiming(ph: Phase) { ph.Idle? || ph.Sweeping? || ph.SlotTaken? }

  /** The phases after the server was started, up to the exit. */
  predicate HasServed(ph: Phase) { IsServing(ph) && !ph.Starting? }

  ghost predicate HasClaimed(own: seq<Action>) {
    Claim(DropGuard) in own || Claim(SkipSlot) in own
  }

  /** The claim comes first, and then the start; a start that failed never ran a server,
      and whatever removes was told to stop fully. */
  ghost predicate FollowsLife(ph: Phase, own: seq<Action>) {
    && (!IsClaiming(ph) && !ph.Gone? ==> HasClaimed(own))
    && (HasServed(ph) ==> End(Started) in own)
    && (!HasServed(ph) && !ph.Gone? ==> End(Started) !in own)
    && (ph.Stopping? || ph.Planning? || ph.Removing? ==> End(StopFully(true)) in own || End(StopFully(false)) in own)
  }

  // ----- One step -----

  lemma {:induction false} WorkGoesOn(own: seq<Action>, a: Action, w: Work, left: nat)
    requires IsUnderWork(own, w, left) && left > 0 && Does(a) == Some(w)
    ensures IsUnderWork(own + [a], w, left - 1)
  {
    var i :| 0 <= i < |own| && IsAmid(own, w, left, i);
    assert IsAmid(own + [a], w, left - 1, i);
  }

  lemma {:induction false} WorkStarts(own: seq<Action>, a: Action)
    requires Begins(a).Some?
    ensures IsUnderWork(own + [a], Begins(a).value.0, Begins(a).value.1)
  {
    assert IsAmid(own + [a], Begins(a).value.0, Begins(a).value.1, |own|);
  }

  lemma {:induction false} StaysWhole(own: seq<Action>, a: Action)
    requires IsWhole(own) && (Ends(a).Some? ==> IsUnderWork(own, Ends(a).value, 0))
    ensures IsWhole(own + [a])
  {
    forall j | 0 <= j < |own| + 1
      ensures EndsWhole(own + [a], j)
    {
      assert (own + [a])[..j] == own[..j];
      assert own[..|own|] == own;
      assert j < |own| ==> EndsWhole(own, j);
    }
  }

  /** Each step of a phase with files left does one of them, begins new work, or stops. */
  lemma {:induction false} WorkStep(c: Config, s: State, p: Pid, a: Action)
    requires p in s.procs && p in c.place && EffectOf(c, s, p, a).Some?
    ensures var ph, ph' := s.procs[p].phase, EffectOf(c, s, p, a).value.phase;
      && (Ends(a).Some? ==> WorkAt(ph) == Some((Ends(a).value, 0)))
      && (WorkAt(ph').Some? ==>
            || Begins(a) == WorkAt(ph')
            || (Does(a) == Some(WorkAt(ph').value.0) && WorkAt(ph) == Some((WorkAt(ph').value.0, WorkAt(ph').value.1 + 1))))
  {}

  lemma {:induction false} StepFollowsWork(c: Config, s: State, p: Pid, a: Action, own: seq<Action>)
    requires p in s.procs && p in c.place && EffectOf(c, s, p, a).Some? && FollowsWork(s.procs[p].phase, own)
    ensures FollowsWork(EffectOf(c, s, p, a).value.phase, own + [a])
  {
    WorkStep(c, s, p, a);
    StaysWhole(own, a);
    var ph, ph' := s.procs[p].phase, EffectOf(c, s, p, a).value.phase;
    if WorkAt(ph').Some? {
      if Begins(a) == WorkAt(ph') { WorkStarts(own, a); } else { WorkGoesOn(own, a, WorkAt(ph).value.0, WorkAt(ph).value.1); }
    }
  }

  lemma {:induction false} DoneAppends(own: seq<Action>, a: Action, w: Work)
    ensures HasDone(own + [a], w) <==> HasDone(own, w) || Ends(a) == Some(w)
  {
    assert a in own + [a];
    assert forall b :: b in own ==> b in own + [a];
  }

  /** How one step moves between the phases before, at and after the tree's completion. */
  lemma {:induction false} TreeStep(c: Config, s: State, p: Pid, a: Action)
    requires p in s.procs && p in c.place && EffectOf(c, s, p, a).Some?
    ensures var ph, ph', w := s.procs[p].phase, EffectOf(c, s, p, a).value.phase, Ends(a);
      && (w == Some(Copy) ==> IsBeforeTree(ph) && SetUpAt(ph') == Some(false))
      && (w == Some(Work.Setup) ==> IsBeforeTree(ph) && SetUpAt(ph') == Some(true))
      && (IsBeforeTree(ph') ==> IsBeforeTree(ph))
      && (SetUpAt(ph').Some? && w != Some(Copy) && w != Some(Work.Setup) ==> SetUpAt(ph) == SetUpAt(ph'))
      && (IsServing(ph') ==> SetUpAt(ph).Some? || IsServing(ph))
  {}

  lemma {:induction false} StepFollowsTree(c: Config, s: State, p: Pid, a: Action, own: seq<Action>)
    requires p in s.procs && p in c.place && EffectOf(c, s, p, a).Some? && FollowsTree(s.procs[p].phase, own)
    ensures FollowsTree(EffectOf(c, s, p, a).value.phase, own + [a])
  {
    TreeStep(c, s, p, a);
    DoneAppends(own, a, Copy);
    DoneAppends(own, a, Work.Setup);
  }

  lemma {:induction false} CountAppends(own: seq<Action>, a: Action)
    ensures CountArchives(own + [a]) == CountArchives(own) + if a == Extend(ArchiveInstalled) then 1 else 0
  {
    assert (own + [a])[..|own|] == own;
  }

  lemma {:induction false} HookGoesOn(own: seq<Action>, a: Action, todo: nat)
    requires IsInHook(own, todo) && (a == Extend(ArchiveInstalled) ==> todo > 0)
    ensures IsInHook(own + [a], if a == Extend(ArchiveInstalled) then todo - 1 else todo)
  {
    var i :| 0 <= i < |own| && HookEntered(own, todo, i);
    CountAppends(own[i + 1..], a);
    assert (own + [a])[i + 1..] == own[i + 1..] + [a];
    assert HookEntered(own + [a], if a == Extend(ArchiveInstalled) then todo - 1 else todo, i);
  }

  lemma {:induction false} HookStarts(own: seq<Action>, a: Action)
    requires EntersHook(a).Some?
    ensures IsInHook(own + [a], EntersHook(a).value)
  {
    assert (own + [a])[|own| + 1..] == [];
    assert HookEntered(own + [a], EntersHook(a).value, |own|);
  }

  /** How one step moves through the hook. */
  lemma {:induction false} HookStep(c: Config, s: State, p: Pid, a: Action)
    requires p in s.procs && p in c.place && EffectOf(c, s, p, a).Some?
    ensures var ph, ph' := s.procs[p].phase, EffectOf(c, s, p, a).value.phase;
      && (HookAt(ph').Some? ==>
            || EntersHook(a) == HookAt(ph')
            || HookAt(ph) == Some(HookAt(ph').value + if a == Extend(ArchiveInstalled) then 1 else 0))
      && (IsServing(ph') ==> IsServing(ph) || a == Extend(NoExtensions) || HookAt(ph) == Some(0))
      && (IsServing(ph') ==> a != Extend(ArchiveInstalled))
  {}

  lemma {:induction false} StepFollowsHook(c: Config, s: State, p: Pid, a: Action, own: seq<Action>)
    requires p in s.procs && p in c.place && EffectOf(c, s, p, a).Some? && FollowsHook(s.procs[p].phase, own)
    ensures FollowsHook(EffectOf(c, s, p, a).value.phase, own + [a])
  {
    HookStep(c, s, p, a);
    var ph, ph' := s.procs[p].phase, EffectOf(c, s, p, a).value.phase;
    if EntersHook(a).Some? { HookStarts(own, a); }
    if HookAt(ph').Some? && EntersHook(a) != HookAt(ph') { HookGoesOn(own, a, HookAt(ph).value); }
    if IsServing(ph') && HookAt(ph) == Some(0) { HookGoesOn(own, a, 0); }
    if IsServing(ph) && IsInHook(own, 0) && IsServing(ph') { HookGoesOn(own, a, 0); }
  }

  /** How one step moves through the life of a cluster. */
  lemma {:induction false} LifeStep(c: Config, s: State, p: Pid, a: Action)
    requires p in s.procs && p in c.place && EffectOf(c, s, p, a).Some?
    ensures var ph, ph' := s.procs[p].phase, EffectOf(c, s, p, a).value.phase;
      && (ph'.Gone? || IsClaiming(ph') || !IsClaiming(ph) || a == Claim(DropGuard) || a == Claim(SkipSlot))
      && (IsClaiming(ph') ==> IsClaiming(ph))
      && (HasServed(ph') <==> (HasServed(ph) && !ph'.Gone?) || a == End(Started))
      && (ph'.Stopping? || ph'.Planning? || ph'.Removing? ==>
            ph.Stopping? || ph.Planning? || ph.Removing? || a == End(StopFully(true)) || a == End(StopFully(false)))
      && !ph.Gone?
  {}

  lemma {:induction false} StepFollowsLife(c: Config, s: State, p: Pid, a: Action, own: seq<Action>)
    requires p in s.procs && p in c.place && EffectOf(c, s, p, a).Some? && FollowsLife(s.procs[p].phase, own)
    ensures FollowsLife(EffectOf(c, s, p, a).value.phase, own + [a])
  {
    LifeStep(c, s, p, a);
  }

  // ----- Runs from the start -----

  ghost predicate Follows(ph: Phase, own: seq<Action>) {
    FollowsWork(ph, own) && FollowsTree(ph, own) && FollowsHook(ph, own) && FollowsLife(ph, own)
  }

  lemma {:induction false} LastStep(c: Config, s: State, es: seq<Event>, s': State) returns (m: State)
    requires Runs(c, s, es, s') && es != []
    ensures Runs(c, s, es[..|es| - 1], m) && Enabled(c, m, es[|es| - 1]) && s' == Do(c, m, es[|es| - 1])
    decreases |es|
  {
    if |es| == 1 {
      m := s;
      assert Runs(c, Do(c, s, es[0]), es[1..], s');
    } else {
      m := LastStep(c, Do(c, s, es[0]), es[1..], s');
      assert es[..|es| - 1][1..] == es[1..][..|es| - 2];
    }
  }

  /** Every phase a process reaches says this about its own steps. */
  lemma {:induction false} PhaseFollows(c: Config, init: State, es: seq<Event>, s: State, p: Pid)
    requires Init(c, init) && Runs(c, init, es, s) && p in c.place
    ensures p in s.procs && Follows(s.procs[p].phase, Own(es, p))
    decreases |es|
  {
    if es != [] {
      var m := LastStep(c, init, es, s);
      var last := es[|es| - 1];
      PhaseFollows(c, init, es[..|es| - 1], m, p);
      if last.pid == p {
        StepFollowsWork(c, m, p, last.action, Own(es[..|es| - 1], p));
        StepFollowsTree(c, m, p, last.action, Own(es[..|es| - 1], p));
        StepFollowsHook(c, m, p, last.action, Own(es[..|es| - 1], p));
        StepFollowsLife(c, m, p, last.action, Own(es[..|es| - 1], p));
      } else {
        assert Own(es, p) == Own(es[..|es| - 1], p);
      }
    }
  }

  // ----- Main results -----

  /** In every run, whatever a process reports as done (a copy, a setup, a population with
      its marker, an archive) it had begun, and since then it has done each of the files
      and nothing else. */
  lemma {:induction false} DoneWorkIsWhole(c: Config, init: State, es: seq<Event>, s: State, p: Pid, j: nat)
    requires Init(c, init) && Runs(c, init, es, s) && p in c.place
    requires j < |Own(es, p)| && Ends(Own(es, p)[j]).Some?
    ensures exists i, n ::
      && 0 <= i < j && j - i - 1 == n && Begins(Own(es, p)[i]) == Some((Ends(Own(es, p)[j]).value, n))
      && forall k :: i < k < j ==> Does(Own(es, p)[k]) == Ends(Own(es, p)[j])
  {
    var own := Own(es, p);
    PhaseFollows(c, init, es, s, p);
    assert EndsWhole(own, j);
    var w := Ends(own[j]).value;
    var i :| 0 <= i < |own[..j]| && IsAmid(own[..j], w, 0, i);
    assert Begins(own[i]) == Some((w, j - i - 1));
    forall k | i < k < j ensures Does(own[k]) == Some(w) {
      assert own[..j][k] == own[k];
    }
  }

  /** In every run, a server runs only from a tree that its own start has copied or set up
      to the end, and with every archive installed that the hook was to install, unless
      the start found none declared. */
  lemma {:induction false} ServersRunOnWholeTrees(c: Config, init: State, es: seq<Event>, s: State, p: Pid)
    requires Init(c, init) && Runs(c, init, es, s) && p in s.procs && s.procs[p].phase.Running?
    ensures HasDone(Own(es, p), Copy) || HasDone(Own(es, p), Work.Setup)
    ensures Extend(NoExtensions) in Own(es, p) ||
      exists i :: 0 <= i < |Own(es, p)| && EntersHook(Own(es, p)[i]) == Some(CountArchives(Own(es, p)[i + 1..]))
  {
    ReachableInv(c, s);
    PhaseFollows(c, init, es, s, p);
    if IsInHook(Own(es, p), 0) {
      var i :| 0 <= i < |Own(es, p)| && HookEntered(Own(es, p), 0, i);
    }
  }

  /** In every run, whoever has got past the claim has claimed or needed no slot; a failed
      start never ran a server, and a stopped one did; and a removal is only ever a part of
      a full stop after that. */
  lemma {:induction false} LifeIsInOrder(c: Config, init: State, es: seq<Event>, s: State, p: Pid)
    requires Init(c, init) && Runs(c, init, es, s) && p in s.procs
    ensures var ph, own := s.procs[p].phase, Own(es, p);
      && (ph.Ready? || ph.Running? || ph.Failed? ==> Claim(DropGuard) in own || Claim(SkipSlot) in own)
      && (ph.Failed? ==> End(Started) !in own)
      && (ph.Running? || ph.Stopped? ==> End(Started) in own)
      && (ph.Removing? ==> End(Started) in own && (End(StopFully(true)) in own || End(StopFully(false)) in own))
  {
    ReachableInv(c, s);
    PhaseFollows(c, init, es, s, p);
  }

  lemma {:induction false} ScopeSpans(pl: Place, ph: Phase, h: Held)
    requires InScope(pl, ph, h)
    ensures ph.Starting? ==> (h.setup.Some? <==> SetUpAt(ph) == Some(true))
    ensures WorkAt(ph).Some? || HookAt(ph).Some? ==> h.setup.Some?
    ensures ph.Running? || ph.HitSetup? ==> h.setup == None
  {}

  /** In every run, the server starts under the setup lock exactly when its start set the
      tree up itself; and whatever writes the tree or its extensions does so under it. */
  lemma {:induction false} SetupLockSpans(c: Config, init: State, es: seq<Event>, s: State, p: Pid)
    requires Init(c, init) && Runs(c, init, es, s) && p in s.procs
    ensures s.procs[p].phase.Starting? ==> (s.procs[p].held.setup.Some? <==> HasDone(Own(es, p), Work.Setup))
    ensures WorkAt(s.procs[p].phase).Some? || HookAt(s.procs[p].phase).Some? ==> s.procs[p].held.setup.Some?
    ensures s.procs[p].phase.Running? || s.procs[p].phase.HitSetup? ==> s.procs[p].held.setup == None
  {
    ReachableInv(c, s);
    ScopeSpans(c.place[p], s.procs[p].phase, s.procs[p].held);
    PhaseFollows(c, init, es, s, p);
  }
}
