// The install-tree protocol: starts and cleanups of many processes on any
// number of install trees and slot parents that share one binary cache, as a
// transition system.
//
// A process is one cluster's life: claim a slot, start, run, stop, clean up,
// exit. Each step of a process is one visible effect (one lock taken, one file
// written, one entry unlinked). A process may die before any step, and death
// drops every lock it holds.

module InstallProtocol {
  import opened Options

  type Pid = nat
  type Tree = nat
  type SlotParent = nat
  type Inode = nat
  type Version = nat
  type Digest = nat

  /** A kernel file lock. The setup lock is taken on an inode, not on a path. */
  datatype Lock =
    | Guard(parent: SlotParent)
    | Slot
    | Setup(inode: Inode)
    | Entry(version: Version, exclusive: bool)
    | Archive(digest: Digest)

  /** The locks one process holds. */
  datatype Held = Held(
    guard: Option<SlotParent>,
    slot: bool,
    setup: Option<Inode>,
    entry: Option<(Version, bool)>,
    archive: Option<Digest>
  )

  const NO_LOCKS := Held(None, false, None, None, None)

  /** One version's entry in the binary cache: whether it carries the completion marker,
      how often it was changed, and how often a population of it ran to its end. */
  datatype CacheEntry = CacheEntry(writes: nat, complete: bool, finished: nat)

  /** Where a process is. A field `fd` is the inode the process has open as the
      setup lock file; `left` counts file operations still to do; `again` says that a
      second round of cleanup follows, as after a stop through the worker. */
  datatype Phase =
    | Idle
    | Sweeping
    | SlotTaken
    | Ready
    | LockOpened(fd: Inode)
    | Lookup(fd: Inode)
    | WaitShared(fd: Inode, version: Version)
    | CheckHit(fd: Inode, version: Version)
    | Copying(fd: Inode, version: Version, left: nat, stamp: CacheEntry)
    | HitSetup
    | HookOpened(fd: Inode)
    | MissSetup(fd: Inode, left: nat)
    | PopulateCheck(fd: Inode, version: Version)
    | WaitExclusive(fd: Inode, version: Version)
    | Recheck(fd: Inode, version: Version)
    | Populating(fd: Inode, version: Version, left: nat)
    | Hook(fd: Inode, miss: bool, todo: nat)
    | WaitArchive(fd: Inode, miss: bool, digest: Digest, todo: nat)
    | Fetching(fd: Inode, miss: bool, digest: Digest, todo: nat)
    | Installing(fd: Inode, miss: bool, left: nat, todo: nat)
    | Starting(kept: Option<Inode>)
    | Running
    | Stopping(again: bool)
    | Planning(again: bool)
    | Removing(left: nat, again: bool)
    | Stopped
    | Failed
    | Gone

  datatype Process = Process(phase: Phase, held: Held)

  /** What the processes share on disk: the inode each tree's setup lock path names
      now (no entry when nothing is there), the next unused inode, and the cache. */
  datatype Disk = Disk(lockFile: map<Tree, Inode>, nextInode: Inode, cache: map<Version, CacheEntry>)

  datatype State = State(procs: map<Pid, Process>, disk: Disk)

  /** The install tree a process runs from, and the slot parent it has to do with. A
      slotted process claims its slot under `parent`, and cleans up under that parent's
      guard. One with an explicit data directory has no slot; it cleans up under the
      guard of the slot parent beside its tree, or under none when there is none or when
      its data directory is that very parent. */
  datatype Place =
    | Slotted(tree: Tree, parent: SlotParent)
    | Explicit(tree: Tree, beside: Option<SlotParent>)

  /** The slot parent under whose guard a process cleans up. */
  function GuardOf(pl: Place): Option<SlotParent> {
    match pl
    case Slotted(_, parent) => Some(parent)
    case Explicit(_, beside) => beside
  }

  /** The processes and their places. `work` bounds the files of one tree and `archives`
      the declared extensions; both are arbitrary. `carriesMarker` says that a tree may
      hold a completion marker, as one does that was itself copied from a cache entry. */
  datatype Config = Config(place: map<Pid, Place>, work: nat, archives: nat, carriesMarker: bool)

  /** Claiming a slot under the claim guard. */
  datatype ClaimAction = TakeGuard | TakeSlot | DropGuard | SkipSlot | ClaimFailed

  /** The setup lock and the cache lookup. */
  datatype LookupAction =
    | OpenLock | TakeSetup
    | FindNone(files: nat) | Find(version: Version) | TakeShared | SharedLockError(files: nat)
    | Hit(files: nat) | StaleEntry(files: nat) | CopyFile | CopyFailed(files: nat) | CopyDone

  /** Setup and cache population after a miss. */
  datatype PopulateAction =
    | SetupWrite | SetupDone(version: Version) | SkipPopulate(extensions: nat) | WantPopulate
    | TakeExclusive | ExclusiveLockError(extensions: nat) | FilledMeanwhile(extensions: nat)
    | BeginPopulate(files: nat) | PopulateFile(isMarker: bool) | PopulateFailed(extensions: nat) | WriteMarker(extensions: nat)

  /** The extension hook. */
  datatype HookAction =
    | NoExtensions | OpenHookLock | TakeHookLock(extensions: nat)
    | NextArchive(digest: Digest) | TakeArchive | Fetched(files: nat) | InstallFile | ArchiveInstalled | HookDone

  /** The end of a start, stop, errors, exit and death. */
  datatype EndAction = Started | StopOnly | StopFully(again: bool) | Fail | Exit | Die

  /** The cleanup after a stop. */
  datatype CleanAction =
    | TakeCleanupGuard | GuardError | KeepInstall | ProbeError | Probe(files: nat) | SkipGuard(files: nat)
    | RemoveEntry(isLockFile: bool) | RemovalEnds

  datatype Action =
    | Claim(claim: ClaimAction)
    | Look(lookup: LookupAction)
    | Populate(populate: PopulateAction)
    | Extend(hook: HookAction)
    | End(end: EndAction)
    | Clean(clean: CleanAction)

  /** What one action does: the new phase, the locks that survive it, the lock it
      takes (if any), and the new disk. */
  datatype Effect = Effect(phase: Phase, kept: Held, take: Option<Lock>, disk: Disk)

  datatype Event = Event(pid: Pid, action: Action)

  function EntryOf(d: Disk, v: Version): CacheEntry {
    if v in d.cache then d.cache[v] else CacheEntry(0, false, 0)
  }

  /** Copies one file, perhaps a marker, into an entry. */
  function CopyInto(d: Disk, v: Version, isMarker: bool): Disk {
    var e := EntryOf(d, v);
    d.(cache := d.cache[v := e.(writes := e.writes + 1, complete := e.complete || isMarker)])
  }

  /** Writes an entry's marker once everything was copied. */
  function FinishEntry(d: Disk, v: Version): Disk {
    var e := EntryOf(d, v);
    d.(cache := d.cache[v := CacheEntry(e.writes + 1, true, e.finished + 1)])
  }

  /** Opens the setup lock's path, creating a new inode when nothing is there. */
  function OpenedInode(d: Disk, t: Tree): Inode {
    if t in d.lockFile then d.lockFile[t] else d.nextInode
  }

  function AfterOpen(d: Disk, t: Tree): Disk {
    if t in d.lockFile then d else d.(lockFile := d.lockFile[t := d.nextInode], nextInode := d.nextInode + 1)
  }

  /** Whether a holder of `h` keeps another descriptor from taking `lock`. */
  predicate Blocks(h: Held, lock: Lock) {
    match lock
    case Guard(r) => h.guard == Some(r)
    case Slot => false
    case Setup(i) => h.setup == Some(i)
    case Entry(v, x) => h.entry.Some? && h.entry.value.0 == v && (x || h.entry.value.1)
    case Archive(d) => h.archive == Some(d)
  }

  function Add(h: Held, lock: Lock): Held {
    match lock
    case Guard(r) => h.(guard := Some(r))
    case Slot => h.(slot := true)
    case Setup(i) => h.(setup := Some(i))
    case Entry(v, x) => h.(entry := Some((v, x)))
    case Archive(d) => h.(archive := Some(d))
  }

  /** No process, the taker included, holds a lock that conflicts with `lock`. */
  ghost predicate Free(s: State, lock: Lock) {
    forall q :: q in s.procs ==> !Blocks(s.procs[q].held, lock)
  }

  /** Another process holds the lock of a slot under the parent that `p` cleans up with,
      so its cluster is a live peer. */
  ghost predicate HasLivePeer(c: Config, s: State, p: Pid)
    requires p in c.place
  {
    exists q :: q in s.procs && q in c.place && q != p && IsPeer(c.place[p], c.place[q]) && s.procs[q].held.slot
  }

  /** A process at `pl` looks for the slot of one at `other` before it removes its tree. */
  predicate IsPeer(pl: Place, other: Place) {
    other.Slotted? && GuardOf(pl) == Some(other.parent)
  }

  /** A start between its claim and its return, where an error ends it. */
  predicate InStart(ph: Phase) {
    !(ph.Idle? || ph.Sweeping? || ph.SlotTaken? || ph.Running? || ph.Stopping? || ph.Planning? || ph.Removing? ||
      ph.Stopped? || ph.Failed? || ph.Gone?)
  }

  function HookAfterMiss(c: Config, fd: Inode, h: Held, d: Disk, extensions: nat): Option<Effect> {
    if extensions <= c.archives then Some(Effect(Hook(fd, true, extensions), h.(entry := None), None, d)) else None
  }

  function Miss(c: Config, fd: Inode, h: Held, d: Disk, files: nat): Option<Effect> {
    if files <= c.work then Some(Effect(MissSetup(fd, files), h.(entry := None), None, d)) else None
  }

  function ClaimEffect(c: Config, pl: Place, ph: Phase, h: Held, d: Disk, a: ClaimAction): Option<Effect> {
    match a
    case TakeGuard => if ph.Idle? && pl.Slotted? then Some(Effect(Sweeping, h, Some(Guard(pl.parent)), d)) else None
    case TakeSlot => if ph.Sweeping? then Some(Effect(SlotTaken, h, Some(Slot), d)) else None
    case DropGuard => if ph.SlotTaken? then Some(Effect(Ready, h.(guard := None), None, d)) else None
    case SkipSlot => if ph.Idle? && pl.Explicit? then Some(Effect(Ready, h, None, d)) else None
    case ClaimFailed => if ph.Sweeping? then Some(Effect(Gone, NO_LOCKS, None, d)) else None
  }

  function LookupEffect(c: Config, t: Tree, ph: Phase, h: Held, d: Disk, a: LookupAction): Option<Effect> {
    match a
    case OpenLock =>
      if ph.Ready? then Some(Effect(LockOpened(OpenedInode(d, t)), h, None, AfterOpen(d, t))) else None
    case TakeSetup =>
      if ph.LockOpened? then Some(Effect(Lookup(ph.fd), h, Some(Setup(ph.fd)), d)) else None
    case FindNone(n) => if ph.Lookup? then Miss(c, ph.fd, h, d, n) else None
    case Find(v) =>
      if ph.Lookup? && EntryOf(d, v).complete then Some(Effect(WaitShared(ph.fd, v), h, None, d)) else None
    case TakeShared =>
      if ph.WaitShared? then Some(Effect(CheckHit(ph.fd, ph.version), h, Some(Entry(ph.version, false)), d)) else None
    case SharedLockError(n) => if ph.WaitShared? then Miss(c, ph.fd, h, d, n) else None
    case Hit(n) =>
      if ph.CheckHit? && EntryOf(d, ph.version).complete && n <= c.work
      then Some(Effect(Copying(ph.fd, ph.version, n, EntryOf(d, ph.version)), h, None, d)) else None
    case StaleEntry(n) =>
      if ph.CheckHit? && !EntryOf(d, ph.version).complete then Miss(c, ph.fd, h, d, n) else None
    case CopyFile =>
      if ph.Copying? && ph.left > 0
      then Some(Effect(Copying(ph.fd, ph.version, ph.left - 1, ph.stamp), h, None, d)) else None
    case CopyFailed(n) => if ph.Copying? then Miss(c, ph.fd, h, d, n) else None
    case CopyDone =>
      // The shared cache lock ends with the lookup; a hit then lets go of the setup lock.
      if ph.Copying? && ph.left == 0 then Some(Effect(HitSetup, h.(entry := None, setup := None), None, d)) else None
  }

  function PopulateEffect(c: Config, ph: Phase, h: Held, d: Disk, a: PopulateAction): Option<Effect> {
    match a
    case SetupWrite =>
      if ph.MissSetup? && ph.left > 0 then Some(Effect(MissSetup(ph.fd, ph.left - 1), h, None, d)) else None
    case SetupDone(v) =>
      if ph.MissSetup? && ph.left == 0 then Some(Effect(PopulateCheck(ph.fd, v), h, None, d)) else None
    case SkipPopulate(e) => if ph.PopulateCheck? then HookAfterMiss(c, ph.fd, h, d, e) else None
    case WantPopulate =>
      if ph.PopulateCheck? && !EntryOf(d, ph.version).complete
      then Some(Effect(WaitExclusive(ph.fd, ph.version), h, None, d)) else None
    case TakeExclusive =>
      if ph.WaitExclusive? then Some(Effect(Recheck(ph.fd, ph.version), h, Some(Entry(ph.version, true)), d)) else None
    case ExclusiveLockError(e) => if ph.WaitExclusive? then HookAfterMiss(c, ph.fd, h, d, e) else None
    case FilledMeanwhile(e) =>
      if ph.Recheck? && EntryOf(d, ph.version).complete then HookAfterMiss(c, ph.fd, h, d, e) else None
    case BeginPopulate(n) =>
      if ph.Recheck? && !EntryOf(d, ph.version).complete && n <= c.work
      then Some(Effect(Populating(ph.fd, ph.version, n), h, None, d)) else None
    case PopulateFile(isMarker) =>
      if ph.Populating? && ph.left > 0 && (isMarker ==> c.carriesMarker)
      then Some(Effect(Populating(ph.fd, ph.version, ph.left - 1), h, None, CopyInto(d, ph.version, isMarker))) else None
    case PopulateFailed(e) => if ph.Populating? then HookAfterMiss(c, ph.fd, h, d, e) else None
    case WriteMarker(e) =>
      if ph.Populating? && ph.left == 0
      then HookAfterMiss(c, ph.fd, h, FinishEntry(d, ph.version), e) else None
  }

  function HookEffect(c: Config, t: Tree, ph: Phase, h: Held, d: Disk, a: HookAction): Option<Effect> {
    match a
    case NoExtensions => if ph.HitSetup? then Some(Effect(Starting(None), h, None, d)) else None
    case OpenHookLock =>
      if ph.HitSetup? then Some(Effect(HookOpened(OpenedInode(d, t)), h, None, AfterOpen(d, t))) else None
    case TakeHookLock(e) =>
      if ph.HookOpened? && e <= c.archives then Some(Effect(Hook(ph.fd, false, e), h, Some(Setup(ph.fd)), d)) else None
    case NextArchive(g) =>
      if ph.Hook? && ph.todo > 0 then Some(Effect(WaitArchive(ph.fd, ph.miss, g, ph.todo - 1), h, None, d)) else None
    case TakeArchive =>
      if ph.WaitArchive?
      then Some(Effect(Fetching(ph.fd, ph.miss, ph.digest, ph.todo), h, Some(Archive(ph.digest)), d)) else None
    case Fetched(n) =>
      if ph.Fetching? && n <= c.work
      then Some(Effect(Installing(ph.fd, ph.miss, n, ph.todo), h.(archive := None), None, d)) else None
    case InstallFile =>
      if ph.Installing? && ph.left > 0
      then Some(Effect(Installing(ph.fd, ph.miss, ph.left - 1, ph.todo), h, None, d)) else None
    case ArchiveInstalled =>
      if ph.Installing? && ph.left == 0 then Some(Effect(Hook(ph.fd, ph.miss, ph.todo), h, None, d)) else None
    case HookDone =>
      // A lock the hook took ends with it; one kept since a miss stays until the start returns.
      if ph.Hook? && ph.todo == 0
      then Some(if ph.miss then Effect(Starting(Some(ph.fd)), h, None, d)
                else Effect(Starting(None), h.(setup := None), None, d)) else None
  }

  function EndEffect(ph: Phase, h: Held, d: Disk, a: EndAction): Option<Effect> {
    match a
    case Started => if ph.Starting? then Some(Effect(Running, h.(setup := None), None, d)) else None
    case StopOnly => if ph.Running? then Some(Effect(Stopped, h, None, d)) else None
    case StopFully(again) => if ph.Running? then Some(Effect(Stopping(again), h, None, d)) else None
    case Fail =>
      // Every guard of the failed start is dropped; the slot lives as long as the process.
      if InStart(ph) then Some(Effect(Failed, NO_LOCKS.(slot := h.slot), None, d)) else None
    case Exit =>
      if ph.Running? || ph.Stopped? || ph.Failed? then Some(Effect(Gone, NO_LOCKS, None, d)) else None
    case Die => if !ph.Gone? then Some(Effect(Gone, NO_LOCKS, None, d)) else None
  }

  /** Where a round of cleanup ends. */
  function CleanedUp(again: bool): Phase {
    if again then Stopping(false) else Stopped
  }

  /** One step of a cleanup by a process at `pl` that finds a live peer or not. */
  function CleanEffect(c: Config, pl: Place, peer: bool, ph: Phase, h: Held, d: Disk, a: CleanAction): Option<Effect> {
    match a
    case TakeCleanupGuard =>
      if ph.Stopping? && GuardOf(pl).Some?
      then Some(Effect(Planning(ph.again), h, Some(Guard(GuardOf(pl).value)), d)) else None
    case GuardError =>
      if ph.Stopping? && GuardOf(pl).Some? then Some(Effect(CleanedUp(ph.again), h, None, d)) else None
    case KeepInstall =>
      if ph.Planning? && peer then Some(Effect(CleanedUp(ph.again), h.(guard := None), None, d)) else None
    case ProbeError =>
      // A lock that cannot be probed counts as held: only the data directory goes.
      if ph.Planning? then Some(Effect(CleanedUp(ph.again), h.(guard := None), None, d)) else None
    case Probe(n) =>
      if ph.Planning? && !peer && n <= c.work then Some(Effect(Removing(n, ph.again), h, None, d)) else None
    case SkipGuard(n) =>
      if ph.Stopping? && GuardOf(pl) == None && n <= c.work
      then Some(Effect(Removing(n, ph.again), h, None, d)) else None
    case RemoveEntry(isLockFile) =>
      if ph.Removing? && ph.left > 0
      then Some(Effect(Removing(ph.left - 1, ph.again), h, None,
                       if isLockFile then d.(lockFile := d.lockFile - {pl.tree}) else d)) else None
    case RemovalEnds =>
      if ph.Removing? then Some(Effect(CleanedUp(ph.again), h.(guard := None), None, d)) else None
  }

  ghost function EffectOf(c: Config, s: State, p: Pid, a: Action): Option<Effect>
    requires p in s.procs && p in c.place
  {
    var pl, ph, h, d := c.place[p], s.procs[p].phase, s.procs[p].held, s.disk;
    match a
    case Claim(x) => ClaimEffect(c, pl, ph, h, d, x)
    case Look(x) => LookupEffect(c, pl.tree, ph, h, d, x)
    case Populate(x) => PopulateEffect(c, ph, h, d, x)
    case Extend(x) => HookEffect(c, pl.tree, ph, h, d, x)
    case End(x) => EndEffect(ph, h, d, x)
    case Clean(x) => CleanEffect(c, pl, HasLivePeer(c, s, p), ph, h, d, x)
  }

  /** The locks held after an effect: those it keeps and the one it takes. */
  function LocksAfter(f: Effect): Held {
    if f.take.Some? then Add(f.kept, f.take.value) else f.kept
  }

  function Apply(s: State, p: Pid, f: Effect): State {
    State(s.procs[p := Process(f.phase, LocksAfter(f))], f.disk)
  }

  ghost predicate Enabled(c: Config, s: State, e: Event) {
    && e.pid in s.procs && e.pid in c.place
    && var r := EffectOf(c, s, e.pid, e.action);
    && r.Some?
    && (r.value.take.Some? ==> Free(s, r.value.take.value))
  }

  ghost function Do(c: Config, s: State, e: Event): State
    requires Enabled(c, s, e)
  {
    Apply(s, e.pid, EffectOf(c, s, e.pid, e.action).value)
  }

  /** A finished entry carries the marker, and was finished once; any other carries it only
      if it came with a copied tree. */
  predicate IsSoundEntry(c: Config, e: CacheEntry) {
    e.finished <= 1 && (e.finished == 1 ==> e.complete) && (e.complete ==> e.finished == 1 || c.carriesMarker)
  }

  /** No process has started; the tree and the cache may hold anything an earlier run left. */
  ghost predicate Init(c: Config, s: State) {
    && s.procs.Keys == c.place.Keys
    && (forall p :: p in s.procs ==> s.procs[p] == Process(Idle, NO_LOCKS))
    && (forall t :: t in s.disk.lockFile ==> s.disk.lockFile[t] < s.disk.nextInode)
    && (forall v :: IsSoundEntry(c, EntryOf(s.disk, v)))
  }

  /** `s'` is reached from `s` by the events of `es`, in order. */
  ghost predicate Runs(c: Config, s: State, es: seq<Event>, s': State)
    decreases |es|
  {
    if es == [] then s' == s
    else Enabled(c, s, es[0]) && Runs(c, Do(c, s, es[0]), es[1..], s')
  }

  ghost predicate Reachable(c: Config, s: State) {
    exists init, es :: Init(c, init) && Runs(c, init, es, s)
  }

  /** The phases that write the install tree on behalf of a start. */
  predicate StartWriting(ph: Phase) {
    ph.Copying? || ph.MissSetup? || ph.Installing?
  }

  /** The phases that write or remove the install tree. */
  predicate TreeWriting(ph: Phase) {
    StartWriting(ph) || ph.Removing?
  }

  /** The setup lock inode a process has open, if it has one. */
  function OpenFd(ph: Phase): Option<Inode> {
    match ph
    case LockOpened(fd) => Some(fd)
    case Lookup(fd) => Some(fd)
    case WaitShared(fd, _) => Some(fd)
    case CheckHit(fd, _) => Some(fd)
    case Copying(fd, _, _, _) => Some(fd)
    case HookOpened(fd) => Some(fd)
    case MissSetup(fd, _) => Some(fd)
    case PopulateCheck(fd, _) => Some(fd)
    case WaitExclusive(fd, _) => Some(fd)
    case Recheck(fd, _) => Some(fd)
    case Populating(fd, _, _) => Some(fd)
    case Hook(fd, _, _) => Some(fd)
    case WaitArchive(fd, _, _, _) => Some(fd)
    case Fetching(fd, _, _, _) => Some(fd)
    case Installing(fd, _, _, _) => Some(fd)
    case Starting(kept) => kept
    case _ => None
  }

  /** The locks the code's scopes hold in each phase. */
  function ScopeLocks(pl: Place, ph: Phase): Held {
    Held(
      if ph.Sweeping? || ph.SlotTaken? || ph.Planning? || ph.Removing? then GuardOf(pl) else None,
      pl.Slotted? && !(ph.Idle? || ph.Sweeping? || ph.Gone?),
      if ph.LockOpened? || ph.HookOpened? then None else OpenFd(ph),
      if ph.CheckHit? || ph.Copying? then Some((ph.version, false))
      else if ph.Recheck? || ph.Populating? then Some((ph.version, true))
      else None,
      if ph.Fetching? then Some(ph.digest) else None
    )
  }
}
