// What the settings of a bootstrap make of the conditions on places: which install
// tree it runs from, and under which slot parent's guard it cleans up.

module InstallPlaces {
  import opened InstallExclusion
  import opened InstallProtocol
  import opened InstallSafety
  import opened Options
  import opened Paths

  /** The root, from `PG_EMBED_ROOT` or the per-user default, and the two overrides,
      `PG_RUNTIME_DIR` and `PG_DATA_DIR`. */
  datatype Settings = Settings(root: Path, runtimeDir: Option<Path>, dataDir: Option<Path>)

  function InstallDir(s: Settings): Path {
    if s.runtimeDir.Some? then s.runtimeDir.value else s.root + ["install"]
  }

  function DataDirUnder(root: Path): Path { root + ["data"] }

  predicate IsNamedInstall(p: Path) {
    p != [] && p[|p| - 1] == "install"
  }

  /** The slot parent beside an install tree, or beside the tree that a version directory
      is in; none when it is not laid out that way. */
  function DerivedSlotParent(install: Path): Option<Path> {
    if IsNamedInstall(install) then Some(DataDirUnder(Parent(install)))
    else if install != [] && IsNamedInstall(Parent(install)) then Some(DataDirUnder(Parent(Parent(install))))
    else None
  }

  /** Beside `<root>/install` and `<root>/install/<version>` the slot parent is
      `<root>/data`; beside any other tree there is none. */
  lemma {:induction false} SlotParentLiesBeside(root: Path, version: string, install: Path)
    ensures DerivedSlotParent(root + ["install"]) == Some(root + ["data"])
    ensures version != "install" ==> DerivedSlotParent(root + ["install", version]) == Some(root + ["data"])
    ensures DerivedSlotParent(install).Some? <==>
      (exists base: Path :: install == base + ["install"]) || (exists base: Path, v :: install == base + ["install", v])
  {
    assert Parent(root + ["install"]) == root;
    assert Parent(root + ["install", version]) == root + ["install"];
    if DerivedSlotParent(install).Some? {
      if IsNamedInstall(install) {
        assert install == Parent(install) + ["install"];
      } else {
        assert install == Parent(Parent(install)) + ["install", install[|install| - 1]];
      }
    }
    if base: Path :| install == base + ["install"] {
      assert IsNamedInstall(install);
    } else if base: Path, v :| install == base + ["install", v] {
      assert Parent(install) == base + ["install"];
    }
  }

  /** The slot parent whose guard a full cleanup takes. */
  function GuardedParent(s: Settings): Option<Path> {
    match s.dataDir
    case None => Some(DataDirUnder(s.root))
    case Some(data) =>
      var beside := DerivedSlotParent(InstallDir(s));
      if beside == Some(data) then None else beside
  }

  /** With the install tree in its usual place, a cleanup of an explicit data directory
      takes the guard of the root's slot parent, unless that is the data directory itself. */
  lemma {:induction false} ExplicitCleanupGuard(root: Path, data: Path)
    ensures GuardedParent(Settings(root, None, Some(data))) == if data == root + ["data"] then None else Some(root + ["data"])
    ensures GuardedParent(Settings(root, None, None)) == Some(root + ["data"])
  {
    SlotParentLiesBeside(root, "", root + ["install"]);
  }

  /** `c` gives each process the place that its settings make, with one number for each
      tree and each slot parent. */
  ghost predicate Describes(c: Config, settings: map<Pid, Settings>) {
    && c.place.Keys == settings.Keys
    && (forall p :: p in settings ==>
          && (c.place[p].Slotted? <==> settings[p].dataDir == None)
          && (GuardOf(c.place[p]).Some? <==> GuardedParent(settings[p]).Some?))
    && (forall p, q :: p in settings && q in settings ==>
          && (c.place[p].tree == c.place[q].tree <==> InstallDir(settings[p]) == InstallDir(settings[q]))
          && (GuardOf(c.place[p]).Some? && GuardOf(c.place[q]).Some? ==>
                (GuardOf(c.place[p]) == GuardOf(c.place[q]) <==> GuardedParent(settings[p]) == GuardedParent(settings[q]))))
  }

  /** The least process of `0..n` that has `path`, or `n`. */
  function FirstWith(paths: map<Pid, Path>, path: Path, n: Pid): (first: Pid)
    ensures first == n || (first < n && first in paths && paths[first] == path)
    ensures forall p :: 0 <= p < first ==> !(p in paths && paths[p] == path)
  {
    if n == 0 then 0
    else
      var first := FirstWith(paths, path, n - 1);
      if first in paths && paths[first] == path then first else n
  }

  lemma {:induction false} SameFirst(paths: map<Pid, Path>, p: Pid, q: Pid)
    requires p in paths && q in paths
    ensures FirstWith(paths, paths[p], p) == FirstWith(paths, paths[q], q) <==> paths[p] == paths[q]
  {}

  function Trees(settings: map<Pid, Settings>): map<Pid, Path> {
    map p | p in settings :: InstallDir(settings[p])
  }

  function Parents(settings: map<Pid, Settings>): map<Pid, Path> {
    map p | p in settings && GuardedParent(settings[p]).Some? :: GuardedParent(settings[p]).value
  }

  /** Each tree and each slot parent numbered by the first process that has it. */
  function PlaceFor(settings: map<Pid, Settings>, p: Pid): (pl: Place)
    requires p in settings
    ensures pl.tree == FirstWith(Trees(settings), InstallDir(settings[p]), p)
    ensures GuardOf(pl).Some? <==> p in Parents(settings)
    ensures p in Parents(settings) ==> GuardOf(pl) == Some(FirstWith(Parents(settings), Parents(settings)[p], p))
  {
    var tree := FirstWith(Trees(settings), InstallDir(settings[p]), p);
    var guard := if p in Parents(settings) then Some(FirstWith(Parents(settings), Parents(settings)[p], p)) else None;
    if settings[p].dataDir == None then Slotted(tree, guard.value) else Explicit(tree, guard)
  }

  lemma {:induction false} PlacesAgree(settings: map<Pid, Settings>, p: Pid, q: Pid)
    requires p in settings && q in settings
    ensures PlaceFor(settings, p).tree == PlaceFor(settings, q).tree <==> InstallDir(settings[p]) == InstallDir(settings[q])
    ensures var g, h := GuardOf(PlaceFor(settings, p)), GuardOf(PlaceFor(settings, q));
      g.Some? && h.Some? ==> (g == h <==> GuardedParent(settings[p]) == GuardedParent(settings[q]))
  {
    SameFirst(Trees(settings), p, q);
    if p in Parents(settings) && q in Parents(settings) { SameFirst(Parents(settings), p, q); }
  }

  /** Whatever the settings of the processes are, they have places. */
  lemma {:induction false} SettingsHavePlaces(settings: map<Pid, Settings>, work: nat, archives: nat, carriesMarker: bool)
    ensures exists c :: Describes(c, settings) && c.work == work && c.archives == archives && c.carriesMarker == carriesMarker
  {
    var c := Config(map p | p in settings :: PlaceFor(settings, p), work, archives, carriesMarker);
    forall p, q | p in settings && q in settings
      ensures c.place[p].tree == c.place[q].tree <==> InstallDir(settings[p]) == InstallDir(settings[q])
      ensures GuardOf(c.place[p]).Some? && GuardOf(c.place[q]).Some? ==>
        (GuardOf(c.place[p]) == GuardOf(c.place[q]) <==> GuardedParent(settings[p]) == GuardedParent(settings[q]))
    {
      PlacesAgree(settings, p, q);
    }
    assert Describes(c, settings);
  }

  ghost predicate SharesInstallDir(settings: map<Pid, Settings>, p: Pid, q: Pid) {
    p in settings && q in settings && p != q && InstallDir(settings[p]) == InstallDir(settings[q])
  }

  /** Install trees have one writer in every run exactly when all who share one leave the
      data directory to the default and have the same root. */
  lemma {:induction false} ExclusionBySettings(c: Config, settings: map<Pid, Settings>)
    requires Describes(c, settings)
    ensures TreeWritesExclude(c) <==>
      forall p, q :: SharesInstallDir(settings, p, q) ==>
        settings[p].dataDir == None && settings[q].dataDir == None && settings[p].root == settings[q].root
  {
    ExclusionIffSlotted(c);
    forall p, q | p in settings && q in settings
      ensures SharesTree(c, p, q) <==> SharesInstallDir(settings, p, q)
      ensures DataDirUnder(settings[p].root) == DataDirUnder(settings[q].root) <==> settings[p].root == settings[q].root
    {
      SameDataDir(settings[p].root, settings[q].root);
    }
  }

  lemma {:induction false} SameDataDir(a: Path, b: Path)
    ensures DataDirUnder(a) == DataDirUnder(b) <==> a == b
  {
    assert DataDirUnder(a)[..|a|] == a && DataDirUnder(b)[..|b|] == b;
  }

  /** Whether a process with these settings looks for the slot of a slotted one with the
      given root before it removes their common tree. */
  predicate LooksFor(s: Settings, root: Path) {
    match s.dataDir
    case None => s.root == root
    case Some(data) => DerivedSlotParent(InstallDir(s)) == Some(DataDirUnder(root)) && data != DataDirUnder(root)
  }

  lemma {:induction false} PeerBySettings(c: Config, settings: map<Pid, Settings>, p: Pid, q: Pid)
    requires Describes(c, settings) && p in settings && q in settings && settings[q].dataDir == None
    ensures IsPeer(c.place[p], c.place[q]) <==> LooksFor(settings[p], settings[q].root)
  {
    SameDataDir(settings[p].root, settings[q].root);
    assert IsPeer(c.place[p], c.place[q]) <==> GuardOf(c.place[p]) == GuardOf(c.place[q]);
    assert LooksFor(settings[p], settings[q].root) <==> GuardedParent(settings[p]) == GuardedParent(settings[q]);
  }

  /** No removal sees a live slotted process on its tree exactly when every sharer has the
      same root and no data directory of its own, or an explicit one other than the slot
      parent, which lies beside the tree. */
  lemma {:induction false} NoPeerBySettings(c: Config, settings: map<Pid, Settings>)
    requires Describes(c, settings)
    ensures RemovalsSeeNoPeer(c) <==>
      forall p, q :: SharesInstallDir(settings, p, q) && settings[q].dataDir == None ==> LooksFor(settings[p], settings[q].root)
  {
    NoPeerIffProtected(c);
    if SlottedAreProtected(c) {
      forall p, q | SharesInstallDir(settings, p, q) && settings[q].dataDir == None
        ensures LooksFor(settings[p], settings[q].root)
      {
        assert IsProtected(c, q);
        PeerBySettings(c, settings, p, q);
      }
    } else {
      var q :| q in c.place && c.place[q].Slotted? && !IsProtected(c, q);
      var p :| p in c.place && p != q && c.place[p].tree == c.place[q].tree && !IsPeer(c.place[p], c.place[q]);
      PeerBySettings(c, settings, p, q);
      assert SharesInstallDir(settings, p, q);
    }
  }

  /** With the data directory set to the very slot parent of a root, as an old layout is
      shared, a full cleanup removes the tree under a slotted start of that root. */
  lemma {:induction false} DataDirAtSlotParentOverruns(c: Config, settings: map<Pid, Settings>, u: Pid, o: Pid)
    requires Describes(c, settings) && u in settings && o in settings && u != o
    requires var root := settings[u].root;
      settings[u] == Settings(root, None, None) && settings[o] == Settings(root, None, Some(DataDirUnder(root)))
    ensures exists s :: Reachable(c, s) && OnSameTree(c, s, o, u) && s.procs[u].phase.MissSetup? && s.procs[o].phase.Removing?
  {
    var install := InstallDir(settings[o]);
    assert Parent(install) == settings[o].root;
    UnseenStartIsOverrun(c, u, o);
  }

  /** A runtime directory shared by two roots separates the tree from the slot parents: a
      full cleanup of one removes it under a slotted start of the other. */
  lemma {:induction false} SharedRuntimeDirOverruns(c: Config, settings: map<Pid, Settings>, u: Pid, o: Pid, dir: Path)
    requires Describes(c, settings) && u in settings && o in settings && settings[u].root != settings[o].root
    requires settings[u] == Settings(settings[u].root, Some(dir), None)
    requires settings[o] == Settings(settings[o].root, Some(dir), None)
    ensures exists s :: Reachable(c, s) && OnSameTree(c, s, o, u) && s.procs[u].phase.MissSetup? && s.procs[o].phase.Removing?
  {
    SameDataDir(settings[u].root, settings[o].root);
    UnseenStartIsOverrun(c, u, o);
  }
}
