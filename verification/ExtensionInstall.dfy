// Installing an extension archive: pass one, pass two, and what both promise together.

module ExtensionInstall {
  import opened ArchivePlan
  import opened ArchiveWrite
  import opened EntryPaths
  import opened InstallOutcome
  import opened InstallTrees
  import opened Options
  import opened Paths

  // ----- What the plan means for the second pass -----

  /** No directory entry names the path of a planned file. (A trailing slash is enough.) */
  ghost predicate HasNoAlias(entries: seq<Entry>) {
    forall d, f :: d in entries && f in entries && d.Entry? && d.kind.Directory? && IsPlannable(f)
      ==> Classify(d.name) != Classify(f.name)
  }

  /** What the archive means by one entry. */
  function WantedFrom(e: Entry): Option<Item> {
    if IsPlannable(e) then Some(Item(PathOf(e), ModeFor(PathOf(e)), e.bytes)) else None
  }

  /** The regular files of the first `n` entries, as the archive means them. */
  function Wanted(entries: seq<Entry>, n: nat): seq<Item>
    requires n <= |entries|
  {
    if n == 0 then []
    else
      var wanted := WantedFrom(entries[n - 1]);
      Wanted(entries, n - 1) + (if wanted.Some? then [wanted.value] else [])
  }

  function PlanOf(entries: seq<Entry>): map<Path, PlannedFile> {
    ByPath(SortFiles(Planned(entries, |entries|)))
  }

  lemma {:induction false} ByPathHolds(files: seq<PlannedFile>, p: Path)
    ensures p in ByPath(files) <==> p in PathsIn(files)
    ensures p in ByPath(files) ==> ByPath(files)[p] in files && ByPath(files)[p].relative == p
  {
    if files != [] {
      var init, last := files[..|files| - 1], files[|files| - 1];
      assert files == init + [last];
      ByPathHolds(init, p);
    }
  }

  /** The plan knows exactly the paths of the regular files, with their modes. */
  lemma {:induction false} PlanHolds(entries: seq<Entry>, p: Path)
    ensures p in PlanOf(entries) <==> p in PathsOf(entries, |entries|)
    ensures p in PlanOf(entries) ==> IsCanonical(p) && PlanOf(entries)[p].mode == if p[0] == "lib" then 493 else 420
  {
    var files, sorted := Planned(entries, |entries|), SortFiles(Planned(entries, |entries|));
    ByPathHolds(sorted, p);
    SortFilesSortsNames(files);
    assert forall f :: f in sorted <==> f in multiset(sorted);
    assert forall f :: f in files <==> f in multiset(files);
    PlannedIsCanonical(entries, |entries|);
  }

  /** Pass two matches a regular file's own entry, and with no alias nothing else. */
  lemma {:induction false} MatchIsWanted(entries: seq<Entry>, k: nat)
    requires k < |entries| && forall e :: e in entries ==> IsAcceptable(e)
    ensures IsPlannable(entries[k]) || HasNoAlias(entries) ==> Match(entries[k], PlanOf(entries)) == WantedFrom(entries[k])
  {
    var e := entries[k];
    assert e in entries;
    if Classify(e.name).Some? {
      var p := Classify(e.name).value;
      PlanHolds(entries, p);
      if IsPlannable(e) {
        PathIsIn(entries, |entries|, k);
      } else if p in PlanOf(entries) {
        PathIsFrom(entries, |entries|, p);
      }
    }
  }

  lemma {:induction false} MatchingGivesWanted(entries: seq<Entry>, plan: map<Path, PlannedFile>, n: nat)
    requires n <= |entries| && forall k :: 0 <= k < n ==> Match(entries[k], plan) == WantedFrom(entries[k])
    ensures Items(entries, plan, n) == Wanted(entries, n)
  {
    if n > 0 { MatchingGivesWanted(entries, plan, n - 1); }
  }

  lemma {:induction false} ItemsAreWanted(entries: seq<Entry>)
    requires HasNoAlias(entries) && forall e :: e in entries ==> IsAcceptable(e)
    ensures AllItems(entries, PlanOf(entries)) == Wanted(entries, |entries|)
  {
    forall k | 0 <= k < |entries|
      ensures Match(entries[k], PlanOf(entries)) == WantedFrom(entries[k])
    {
      MatchIsWanted(entries, k);
    }
    MatchingGivesWanted(entries, PlanOf(entries), |entries|);
  }

  lemma {:induction false} WantedIsDistinct(entries: seq<Entry>, n: nat)
    requires n <= |entries| && HasDistinctPaths(entries, n)
    ensures AreDistinct(Wanted(entries, n))
    ensures forall i :: 0 <= i < |Wanted(entries, n)| ==> Wanted(entries, n)[i].path in PathsOf(entries, n)
  {
    if n > 0 {
      WantedIsDistinct(entries, n - 1);
      if IsPlannable(entries[n - 1]) {
        SeenIffRepeated(entries, n - 1);
      }
    }
  }

  // ----- Caps -----

  /** Headers that tell the truth. */
  ghost predicate HasHonestHeaders(entries: seq<Entry>) {
    forall e :: e in entries && IsPlannable(e) ==> e.declared == Some(|e.bytes|)
  }

  lemma {:induction false} TotalExtends(a: seq<Item>, b: seq<Item>, n: nat)
    requires n <= |a| && a <= b
    ensures Total(a, n) == Total(b, n)
  {
    if n > 0 { TotalExtends(a, b, n - 1); }
  }

  lemma {:induction false} TotalGrows(items: seq<Item>, n: nat, m: nat)
    requires n <= m <= |items|
    ensures Total(items, n) <= Total(items, m)
  {
    if n < m { TotalGrows(items, n, m - 1); }
  }

  lemma {:induction false} HonestCharge(entries: seq<Entry>, k: nat)
    requires k < |entries| && HasHonestHeaders(entries)
    ensures Charge(entries[k]) == if WantedFrom(entries[k]).Some? then |WantedFrom(entries[k]).value.bytes| else 0
  {
    assert entries[k] in entries;
  }

  lemma {:induction false} WantedIsDeclared(entries: seq<Entry>, n: nat)
    requires n <= |entries| && HasHonestHeaders(entries)
    ensures Total(Wanted(entries, n), |Wanted(entries, n)|) == Declared(entries, n)
  {
    if n > 0 {
      WantedIsDeclared(entries, n - 1);
      HonestCharge(entries, n - 1);
      TotalExtends(Wanted(entries, n - 1), Wanted(entries, n), |Wanted(entries, n - 1)|);
    }
  }

  lemma {:induction false} WantedFitsTheCap(entries: seq<Entry>, n: nat, i: nat)
    requires n <= |entries| && HasHonestHeaders(entries) && FitsTheCaps(entries) && i < |Wanted(entries, n)|
    ensures |Wanted(entries, n)[i].bytes| <= ENTRY_DECOMPRESSED_CAP
  {
    if i < |Wanted(entries, n - 1)| {
      WantedFitsTheCap(entries, n - 1, i);
    } else {
      assert entries[n - 1] in entries;
    }
  }

  /** An accepted archive with honest headers and no alias never breaches a cap while it
      is written, so pass two cannot end over a cap. */
  lemma {:induction false} AcceptedArchiveFits(entries: seq<Entry>, manifest: seq<string>, m: nat)
    requires IsValid(entries, manifest) && HasNoAlias(entries) && HasHonestHeaders(entries)
    requires m < |AllItems(entries, PlanOf(entries))|
    ensures FitsAt(AllItems(entries, PlanOf(entries)), m)
  {
    var items := Wanted(entries, |entries|);
    ItemsAreWanted(entries);
    WantedIsDeclared(entries, |entries|);
    TotalGrows(items, m + 1, |items|);
    WantedFitsTheCap(entries, |entries|, m);
  }

  /** The wanted files are the planned ones, path by path and mode by mode. */
  lemma {:induction false} WantedIsPlanned(entries: seq<Entry>, n: nat)
    requires n <= |entries|
    ensures |Wanted(entries, n)| == |Planned(entries, n)|
    ensures forall i :: 0 <= i < |Wanted(entries, n)| ==>
      PlannedFile(Wanted(entries, n)[i].path, Wanted(entries, n)[i].mode) == Planned(entries, n)[i]
  {
    if n > 0 { WantedIsPlanned(entries, n - 1); }
  }

  /** A finished installation of an accepted archive turns the tree into the old one
      overridden at exactly the manifest's paths, with the archive's bytes and the modes
      of the layout; installing it again then changes nothing. */
  lemma {:induction false} AcceptedArchiveIsInstalled(c: Context, t: Tree, entries: seq<Entry>, manifest: seq<string>)
    requires IsTree(t) && IsValid(entries, manifest) && HasNoAlias(entries)
    requires var items := AllItems(entries, PlanOf(entries));
      IsWritable(c, t, items, |items|) && HasNoCollision(c, t, items)
    ensures var items := AllItems(entries, PlanOf(entries));
      var u := After(c, t, items, |items|);
      && |items| == |Planned(entries, |entries|)|
      && (forall i :: 0 <= i < |items| ==> PlannedFile(items[i].path, items[i].mode) == Planned(entries, |entries|)[i])
      && items == Wanted(entries, |entries|) && IsOverridden(c, t, items, u)
      && After(c, u, items, |items|) == u && IsWritable(c, u, items, |items|) && IsAllIdentical(c, u, items)
  {
    var items := Wanted(entries, |entries|);
    ItemsAreWanted(entries);
    WantedIsDistinct(entries, |entries|);
    WantedIsPlanned(entries, |entries|);
    PlannedIsCanonical(entries, |entries|);
    forall i | 0 <= i < |items|
      ensures items[i].path != []
    {
      assert Planned(entries, |entries|)[i] in Planned(entries, |entries|);
    }
    CompletedTreeIsOverridden(c, t, items);
    ReinstallChangesNothing(c, t, items);
  }

  // ----- Aliases -----

  ghost predicate MatchesPath(e: Entry, plan: map<Path, PlannedFile>, p: Path) {
    Match(e, plan).Some? && Match(e, plan).value.path == p
  }

  lemma {:induction false} ItemIsEntry(entries: seq<Entry>, plan: map<Path, PlannedFile>, n: nat, j: nat)
    returns (k: nat)
    requires n <= |entries| && j < |Items(entries, plan, n)|
    ensures k < n && |Items(entries, plan, k)| == j
    ensures MatchesPath(entries[k], plan, Items(entries, plan, n)[j].path)
  {
    if j < |Items(entries, plan, n - 1)| {
      k := ItemIsEntry(entries, plan, n - 1, j);
    } else {
      k := n - 1;
    }
  }

  /** Whatever the kinds of the entries, the last one that names a planned path decides
      what is installed there. */
  lemma {:induction false} LastEntryWins(c: Context, t: Tree, entries: seq<Entry>, plan: map<Path, PlannedFile>, d: nat, p: Path)
    requires d < |entries| && MatchesPath(entries[d], plan, p)
    requires forall e :: d < e < |entries| ==> !MatchesPath(entries[e], plan, p)
    ensures var items := AllItems(entries, plan);
      var u := After(c, t, items, |items|);
      && p in u && u[p].File? && u[p].owner == c.owner
      && u[p].mode == plan[p].mode && c.digest(u[p].bytes) == c.digest(entries[d].bytes)
  {
    var items, i := AllItems(entries, plan), |Items(entries, plan, d)|;
    MatchIsNext(entries, plan, d);
    forall j | i < j < |items|
      ensures items[j].path != p
    {
      var k := ItemIsEntry(entries, plan, |entries|, j);
      if k <= d { ItemsExtend(entries, plan, k, d); }
    }
    LastWriteWins(c, t, items, |items|, i);
  }

  /** The last index from `k` on that is marked. */
  lemma {:induction false} LastMarked(marks: seq<bool>, k: nat) returns (d: nat)
    requires k < |marks| && marks[k]
    ensures k <= d < |marks| && marks[d] && forall e :: d < e < |marks| ==> !marks[e]
  {
    var last := |marks| - 1;
    if marks[last] {
      d := last;
    } else {
      d := LastMarked(marks[..last], k);
    }
  }

  /** Entry `d` is a directory whose name classifies to the path of regular file `k`. */
  ghost predicate IsAlias(entries: seq<Entry>, d: nat, k: nat)
    requires d < |entries| && k < |entries|
  {
    IsPlannable(entries[k]) && entries[d].Entry? && entries[d].kind.Directory?
    && Classify(entries[d].name) == Classify(entries[k].name)
  }

  ghost predicate IsOverwriter(entries: seq<Entry>, k: nat, d: nat)
    requires k < |entries| && d < |entries|
  {
    && IsAlias(entries, d, k) && entries[d].bytes != entries[k].bytes
    && forall e :: d < e < |entries| ==> !IsAlias(entries, e, k)
  }

  /** The last alias of regular file `k` comes after it and carries other bytes. */
  ghost predicate IsOverwritten(entries: seq<Entry>, k: nat)
    requires k < |entries|
  {
    exists d :: k < d < |entries| && IsOverwriter(entries, k, d)
  }

  lemma {:induction false} OthersMatchAsAliases(entries: seq<Entry>, k: nat, x: nat)
    requires k < |entries| && x < |entries| && x != k && IsPlannable(entries[k])
    requires HasDistinctPaths(entries, |entries|) && forall e :: e in entries ==> IsAcceptable(e)
    ensures MatchesPath(entries[x], PlanOf(entries), PathOf(entries[k])) <==> IsAlias(entries, x, k)
  {
    PathIsIn(entries, |entries|, k);
    PlanHolds(entries, PathOf(entries[k]));
    assert entries[x] in entries;
    if IsPlannable(entries[x]) {
      assert !Clash(entries[if x < k then x else k], entries[if x < k then k else x]);
    }
  }

  lemma {:induction false} PlannedOnce(entries: seq<Entry>, p: Path)
    ensures p in PathList(SortFiles(Planned(entries, |entries|))) ==> p in PathsOf(entries, |entries|)
  {
    var files, sorted := Planned(entries, |entries|), SortFiles(Planned(entries, |entries|));
    SortFilesSortsNames(files);
    if p in PathList(sorted) {
      var i :| 0 <= i < |sorted| && sorted[i].relative == p;
      SameFiles(sorted, files);
      assert sorted[i] in files;
    }
  }

  /** A finished pass leaves every file of `lib` with mode 0o755 and every file of
      `share` with mode 0o644, all with the owner of the tree. */
  lemma {:induction false} InstalledModes(c: Context, t: Tree, entries: seq<Entry>, p: Path)
    requires HasDistinctPaths(entries, |entries|) && forall e :: e in entries ==> IsAcceptable(e)
    requires p in PathsOf(entries, |entries|)
    ensures var items := AllItems(entries, PlanOf(entries));
      IsStamped(c, After(c, t, items, |items|), p)
  {
    PathIsFrom(entries, |entries|, p);
    var k :| 0 <= k < |entries| && IsPlannable(entries[k]) && PathOf(entries[k]) == p;
    PlanHolds(entries, p);
    var d := LastAliasWins(c, t, entries, k);
  }

  ghost predicate IsCollisionFree(c: Context) {
    forall a, b :: c.digest(a) == c.digest(b) ==> a == b
  }

  /** Regular file `k` or its last alias `d` decides what is installed at its path. */
  lemma {:induction false} LastAliasWins(c: Context, t: Tree, entries: seq<Entry>, k: nat) returns (d: nat)
    requires k < |entries| && IsPlannable(entries[k]) && HasDistinctPaths(entries, |entries|)
    requires forall e :: e in entries ==> IsAcceptable(e)
    ensures k <= d < |entries| && (d == k || IsAlias(entries, d, k))
    ensures forall e :: d < e < |entries| ==> !IsAlias(entries, e, k)
    ensures var items := AllItems(entries, PlanOf(entries));
      var u, p := After(c, t, items, |items|), PathOf(entries[k]);
      p in u && u[p].File? && c.digest(u[p].bytes) == c.digest(entries[d].bytes)
        && p in PlanOf(entries) && u[p].mode == PlanOf(entries)[p].mode && u[p].owner == c.owner
  {
    var plan, p := PlanOf(entries), PathOf(entries[k]);
    PathIsIn(entries, |entries|, k);
    PlanHolds(entries, p);
    MatchIsWanted(entries, k);
    var marks := seq(|entries|, x requires 0 <= x < |entries| => MatchesPath(entries[x], plan, p));
    d := LastMarked(marks, k);
    forall e | d < e < |entries|
      ensures !MatchesPath(entries[e], plan, p) && !IsAlias(entries, e, k)
    {
      assert !marks[e];
      OthersMatchAsAliases(entries, k, e);
    }
    assert marks[d];
    if d != k { OthersMatchAsAliases(entries, k, d); }
    LastEntryWins(c, t, entries, plan, d, p);
  }

  lemma {:induction false} OverwrittenByTheLast(entries: seq<Entry>, k: nat, d: nat)
    requires k <= d < |entries| && entries[k].Entry? && entries[d].Entry? && (d == k || IsAlias(entries, d, k))
    requires forall e :: d < e < |entries| ==> !IsAlias(entries, e, k)
    ensures IsOverwritten(entries, k) <==> entries[d].bytes != entries[k].bytes
  {
    if d > k && entries[d].bytes != entries[k].bytes {
      assert IsOverwriter(entries, k, d);
    }
    forall e | k < e < |entries| && IsOverwriter(entries, k, e)
      ensures e == d
    {
      if e < d { assert false; }
    }
  }

  /** A regular file of an accepted archive is installed with its own bytes exactly when
      no directory entry overwrites it. */
  lemma {:induction false} RightBytesIffNotOverwritten(c: Context, t: Tree, entries: seq<Entry>, manifest: seq<string>, k: nat)
    requires IsValid(entries, manifest) && k < |entries| && IsPlannable(entries[k]) && IsCollisionFree(c)
    ensures var items := AllItems(entries, PlanOf(entries));
      var u, p := After(c, t, items, |items|), PathOf(entries[k]);
      p in u && u[p].File? && (u[p].bytes == entries[k].bytes <==> !IsOverwritten(entries, k))
  {
    var d := LastAliasWins(c, t, entries, k);
    OverwrittenByTheLast(entries, k, d);
  }

  /** A one-byte file and a directory entry with the same name and a trailing slash. */
  function Aliased(name: string): seq<Entry> {
    [Entry(Regular, name, Some(1), [1]), Entry(Directory, name + "/", Some(0), [])]
  }

  lemma {:induction false} AliasedIsAlias(name: string)
    requires Classify(name).Some?
    ensures IsPlannable(Aliased(name)[0]) && PathOf(Aliased(name)[0]) == Classify(name).value
    ensures !IsPlannable(Aliased(name)[1]) && IsAlias(Aliased(name), 1, 0)
  {
    ClassifiedIsCanonical(name);
    assert name != "";
    TrailingSlashAliases(name);
  }

  lemma {:induction false} AliasedIsValid(name: string)
    requires Classify(name).Some?
    ensures IsValid(Aliased(name), [JoinPath(Classify(name).value)])
  {
    var entries, p := Aliased(name), Classify(name).value;
    AliasedIsAlias(name);
    var file := PlannedFile(p, ModeFor(p));
    assert PlanFrom(entries[0]) == Some(file) && PlanFrom(entries[1]) == None;
    assert Planned(entries, 2) == Planned(entries, 1) == [file];
    assert Declared(entries, 2) == Declared(entries, 1) == 1;
    assert NamesOf([file]) == [JoinPath(p)];
  }

  /** For every acceptable name there is an accepted archive whose one file is installed
      empty: a directory entry with a trailing slash names the same path, and pass two
      looks at paths only. */
  lemma {:induction false} AliasOverwritesFile(c: Context, t: Tree, name: string)
    requires Classify(name).Some? && IsCollisionFree(c)
    ensures IsValid(Aliased(name), [JoinPath(Classify(name).value)])
    ensures var items := AllItems(Aliased(name), PlanOf(Aliased(name)));
      var u, p := After(c, t, items, |items|), Classify(name).value;
      p in u && u[p].File? && u[p].bytes == [] != Aliased(name)[0].bytes
  {
    AliasedIsValid(name);
    AliasedIsAlias(name);
    var d := LastAliasWins(c, t, Aliased(name), 0);
    assert d == 1;
  }

  // ----- The whole installation -----

  datatype Report = Rejected | Finished(files: seq<Path>) | Partial(ending: Ending, written: seq<Path>)

  function PathList(files: seq<PlannedFile>): seq<Path> {
    seq(|files|, i requires 0 <= i < |files| => files[i].relative)
  }

  /** The file at `p` has the mode and the owner that its place asks for. */
  ghost predicate IsStamped(c: Context, t: Tree, p: Path) {
    p in t && t[p].File? && t[p].owner == c.owner && p != [] && t[p].mode == if p[0] == "lib" then 493 else 420
  }

  /** What an installation without aliases has made of the tree, by its report. */
  ghost predicate HasInstalled(tree: InstallTree, start: Start, items: seq<Item>, report: Report)
    reads tree
  {
    && (forall k :: start.states <= k < |tree.history| ==> IsSafeState(tree.context, start.nodes, items, tree.history[k]))
    && (report.Finished? && HasNoCollision(tree.context, start.nodes, items) ==>
          IsOverridden(tree.context, start.nodes, items, tree.nodes))
    && (report.Finished? ==> IsInstalled(tree.context, tree.nodes, items))
    && (report.Partial? && report.ending.NotWritten? && tree.strays == start.strays ==>
          |report.written| < |items| && HasChangedOnly(tree.context, start.nodes, items, |report.written|, tree.nodes))
    && (report.Partial? && !report.ending.NotWritten? ==>
          |report.written| <= |items| && tree.nodes == After(tree.context, start.nodes, items, |report.written|))
  }

  lemma {:induction false} ReportIsTrue(tree: InstallTree, start: Start, entries: seq<Entry>, items: seq<Item>,
                                        report: Report, left: nat)
    requires HasNoAlias(entries) && (forall e :: e in entries ==> IsAcceptable(e)) && HasDistinctPaths(entries, |entries|)
    requires items == AllItems(entries, PlanOf(entries)) && HasBeenCareful(tree, start, items)
    requires report.Finished? ==> HasEnded(tree, start, items, |items|, left, Complete)
    requires report.Partial? ==>
      |report.written| <= |items| && HasEnded(tree, start, items, |report.written|, left, report.ending)
    requires report.Partial? ==> report.ending != Complete
    ensures HasInstalled(tree, start, items, report)
  {
    ItemsAreWanted(entries);
    WantedIsDistinct(entries, |entries|);
    var c, t := tree.context, start.nodes;
    forall k | start.states <= k < |tree.history|
      ensures IsSafeState(c, t, items, tree.history[k])
    {
      CrashLeavesFilesWhole(c, t, items, tree.history[k]);
    }
    if report.Finished? { CompletedIsInstalled(c, t, items); }
    if report.Finished? && HasNoCollision(c, t, items) {
      CompletedTreeIsOverridden(c, t, items);
    }
    if report.Partial? && report.ending.NotWritten? && tree.strays == start.strays {
      FailureKeepsTheRest(c, t, items, |report.written|, tree.nodes);
    }
  }

  /** Validates, then writes. A rejected archive has changed nothing. An accepted one
      without aliases is, at every moment, installed file by whole file; and when its
      headers are honest and the system does not fail, it is installed exactly when the
      old tree has all the places free and no two of them nest. What is finished is in
      place, and installing an archive whose files are in place, as a second installation
      does, creates no temporary and leaves the tree as it is. */
  method InstallArchive(tree: InstallTree, entries: seq<Entry>, manifest: seq<string>) returns (report: Report, left: nat)
    requires IsTree(tree.nodes)
    modifies tree
    ensures report.Rejected? <==> !IsValid(entries, manifest)
    ensures report.Rejected? ==> unchanged(tree)
    ensures report.Finished? ==> report.files == PathList(SortFiles(Planned(entries, |entries|)))
    ensures report.Finished? ==> forall p :: p in report.files ==> IsStamped(tree.context, tree.nodes, p)
    ensures !report.Rejected? ==>
      var items := AllItems(entries, PlanOf(entries));
      var start := old(StartOf(tree));
      && HasBeenCareful(tree, start, items)
      && (report.Finished? ==> HasEnded(tree, start, items, |items|, left, Complete))
      && (report.Partial? ==>
            && report.ending != Complete && |report.written| <= |items|
            && report.written == Destinations(items, |report.written|)
            && HasEnded(tree, start, items, |report.written|, left, report.ending))
      && (HasNoAlias(entries) ==> HasInstalled(tree, start, items, report))
    ensures IsValid(entries, manifest) && HasNoAlias(entries) && HasHonestHeaders(entries) && tree.faults == old(tree.faults) ==>
      (report.Finished? <==> HasFreePlaces(old(tree.nodes), AllItems(entries, PlanOf(entries))))
    ensures IsValid(entries, manifest) && HasNoAlias(entries) && HasHonestHeaders(entries) && tree.faults == old(tree.faults) ==>
      (IsInstalled(tree.context, old(tree.nodes), AllItems(entries, PlanOf(entries))) ==>
         report.Finished? && tree.nodes == old(tree.nodes) && tree.temporaries == old(tree.temporaries))
  {
    ghost var start, items := StartOf(tree), AllItems(entries, PlanOf(entries));
    var plan := PlanArchive(entries, manifest);
    if plan.None? { return Rejected, ARCHIVE_DECOMPRESSED_CAP; }
    var ending, written, rest := WriteAll(tree, entries, plan.value);
    WritableIffPlacesFree(tree.context, start.nodes, items);
    if IsInstalled(tree.context, start.nodes, items) { InstalledStays(tree.context, start.nodes, items); }
    if ending.OverCap? && HasNoAlias(entries) && HasHonestHeaders(entries) {
      AcceptedArchiveFits(entries, manifest, |written|);
    }
    report := if ending.Complete? then Finished(PathList(plan.value)) else Partial(ending, written);
    if report.Finished? {
      forall p | p in report.files ensures IsStamped(tree.context, tree.nodes, p) {
        PlannedOnce(entries, p);
        InstalledModes(tree.context, start.nodes, entries, p);
      }
    }
    if HasNoAlias(entries) {
      ReportIsTrue(tree, start, entries, items, report, rest);
    }
    return report, rest;
  }
}
