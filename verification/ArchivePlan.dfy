// Pass one of installing an extension: an archive is validated in full before a
// byte of it is written.

module ArchivePlan {
  import opened EntryPaths
  import opened NameOrder
  import opened Options
  import opened Paths

  const LIB_MODE := 493                    // 0o755
  const SHARE_MODE := 420                  // 0o644
  const U64_MAX := 0xFFFF_FFFF_FFFF_FFFF
  const ENTRY_DECOMPRESSED_CAP := 64 * 1024 * 1024
  const ARCHIVE_DECOMPRESSED_CAP := 256 * 1024 * 1024

  datatype Kind = Directory | Regular | Special

  /** One archive entry; `declared` is the size in its header, when that can be read.
      `Corrupt` stands for an entry the decoder cannot deliver. */
  datatype Entry =
    | Entry(kind: Kind, name: string, declared: Option<nat>, bytes: Bytes)
    | Corrupt

  datatype PlannedFile = PlannedFile(relative: Path, mode: nat)

  function ModeFor(p: Path): nat {
    if p != [] && p[0] == "lib" then LIB_MODE else SHARE_MODE
  }

  // ----- Which archives are valid -----

  /** A regular file that pass one plans. */
  predicate IsPlannable(e: Entry) {
    e.Entry? && e.kind.Regular? && Classify(e.name).Some?
  }

  predicate IsAcceptable(e: Entry) {
    e.Entry? && e.declared.Some? && (e.kind.Directory? || IsPlannable(e))
  }

  function PathOf(e: Entry): Path
    requires IsPlannable(e)
  {
    Classify(e.name).value
  }

  function PlanFrom(e: Entry): (file: Option<PlannedFile>)
    ensures file.Some? <==> IsPlannable(e)
    ensures file.Some? ==> file.value.relative == PathOf(e) && file.value.mode == ModeFor(file.value.relative)
  {
    if IsPlannable(e) then Some(PlannedFile(PathOf(e), ModeFor(PathOf(e)))) else None
  }

  /** The planned files among the first `n` entries. */
  function Planned(entries: seq<Entry>, n: nat): seq<PlannedFile>
    requires n <= |entries|
  {
    if n == 0 then []
    else
      var file := PlanFrom(entries[n - 1]);
      Planned(entries, n - 1) + (if file.Some? then [file.value] else [])
  }

  function Charge(e: Entry): nat {
    if IsPlannable(e) && e.declared.Some? then e.declared.value else 0
  }

  /** The bytes that the planned files among the first `n` entries declare. */
  function Declared(entries: seq<Entry>, n: nat): nat
    requires n <= |entries|
  {
    if n == 0 then 0 else Declared(entries, n - 1) + Charge(entries[n - 1])
  }

  function NamesOf(files: seq<PlannedFile>): (names: seq<string>)
    ensures |names| == |files|
  {
    seq(|files|, i requires 0 <= i < |files| => JoinPath(files[i].relative))
  }

  /** Two regular files that classify to the same path. */
  ghost predicate Clash(e: Entry, f: Entry) {
    IsPlannable(e) && IsPlannable(f) && PathOf(e) == PathOf(f)
  }

  /** The regular files among the first `n` entries have different paths. */
  ghost predicate HasDistinctPaths(entries: seq<Entry>, n: nat)
    requires n <= |entries|
  {
    forall i, j {:trigger Clash(entries[i], entries[j])} :: 0 <= i < j < n ==> !Clash(entries[i], entries[j])
  }

  predicate IsWithinCap(e: Entry) { Charge(e) <= ENTRY_DECOMPRESSED_CAP }

  ghost predicate FitsTheCaps(entries: seq<Entry>) {
    && (forall e :: e in entries ==> IsWithinCap(e))
    && Declared(entries, |entries|) <= ARCHIVE_DECOMPRESSED_CAP
  }

  /** The caps in bytes: 64 MiB an entry and 256 MiB an archive. */
  lemma {:induction false} FitsTheCapsIff(entries: seq<Entry>)
    ensures FitsTheCaps(entries) <==>
      && Declared(entries, |entries|) <= 268_435_456
      && forall e :: e in entries && IsPlannable(e) && e.declared.Some? ==> e.declared.value <= 67_108_864
  {
    assert forall e :: IsWithinCap(e) <==> (IsPlannable(e) && e.declared.Some? ==> e.declared.value <= 67_108_864);
  }

  /** The archives that pass one lets through, against the manifest's list of files. */
  ghost predicate IsValid(entries: seq<Entry>, manifest: seq<string>) {
    && (forall e :: e in entries ==> IsAcceptable(e))
    && HasDistinctPaths(entries, |entries|)
    && FitsTheCaps(entries)
    && multiset(NamesOf(Planned(entries, |entries|))) == multiset(manifest)
  }

  // ----- The pass itself -----

  function SaturatingAdd(a: nat, b: nat): nat {
    if a + b > U64_MAX then U64_MAX else a + b
  }

  /** The running total including `size`, unless a cap is breached. */
  function CheckDecompressedCaps(size: nat, declared: nat): Option<nat> {
    var total := SaturatingAdd(declared, size);
    if size > ENTRY_DECOMPRESSED_CAP || total > ARCHIVE_DECOMPRESSED_CAP then None else Some(total)
  }

  datatype Verdict = Skip | Plan(file: PlannedFile) | Reject

  method PlanEntry(kind: Kind, name: string) returns (v: Verdict)
    ensures v == match kind
      case Directory => Skip
      case Special => Reject
      case Regular =>
        if Classify(name).Some? then Plan(PlannedFile(Classify(name).value, ModeFor(Classify(name).value))) else Reject
    ensures v.Plan? ==> v.file.mode == if v.file.relative[..1] == ["lib"] then 493 else 420
  {
    if kind.Directory? { return Skip; }
    if !kind.Regular? { return Reject; }
    var relative := ClassifyEntryPath(name);
    if relative.None? { return Reject; }
    return Plan(PlannedFile(relative.value, if relative.value[0] == "lib" then LIB_MODE else SHARE_MODE));
  }

  lemma {:induction false} DeclaredGrows(entries: seq<Entry>, n: nat, m: nat)
    requires n <= m <= |entries|
    ensures Declared(entries, n) <= Declared(entries, m)
  {
    if n < m { DeclaredGrows(entries, n, m - 1); }
  }

  ghost function PathsIn(files: seq<PlannedFile>): set<Path> {
    set f | f in files :: f.relative
  }

  /** The paths planned by the first `n` entries. */
  ghost function PathsOf(entries: seq<Entry>, n: nat): set<Path>
    requires n <= |entries|
  {
    PathsIn(Planned(entries, n))
  }

  lemma {:induction false} PathIsFrom(entries: seq<Entry>, n: nat, p: Path)
    requires n <= |entries| && p in PathsOf(entries, n)
    ensures exists k :: 0 <= k < n && IsPlannable(entries[k]) && PathOf(entries[k]) == p
  {
    if p in PathsOf(entries, n - 1) { PathIsFrom(entries, n - 1, p); }
  }

  lemma {:induction false} PathIsIn(entries: seq<Entry>, n: nat, k: nat)
    requires k < n <= |entries| && IsPlannable(entries[k])
    ensures PathOf(entries[k]) in PathsOf(entries, n)
  {
    if k < n - 1 { PathIsIn(entries, n - 1, k); }
  }

  /** A path that was seen before makes the archive invalid, any other keeps it distinct. */
  lemma {:induction false} SeenIffRepeated(entries: seq<Entry>, n: nat)
    requires n < |entries| && IsPlannable(entries[n]) && HasDistinctPaths(entries, n)
    ensures PathOf(entries[n]) !in PathsOf(entries, n) <==> HasDistinctPaths(entries, n + 1)
  {
    var p := PathOf(entries[n]);
    if p in PathsOf(entries, n) {
      PathIsFrom(entries, n, p);
      var k :| 0 <= k < n && IsPlannable(entries[k]) && PathOf(entries[k]) == p;
      assert Clash(entries[k], entries[n]);
    } else {
      forall i | 0 <= i < n
        ensures !Clash(entries[i], entries[n])
      {
        if IsPlannable(entries[i]) { PathIsIn(entries, n, i); }
      }
    }
  }

  lemma {:induction false} SkippingKeepsDistinct(entries: seq<Entry>, n: nat)
    requires n < |entries| && !IsPlannable(entries[n]) && HasDistinctPaths(entries, n)
    ensures HasDistinctPaths(entries, n + 1)
  {
  }

  // ----- The order of the plan -----

  function NameOf(file: PlannedFile): string { JoinPath(file.relative) }

  function InsertFile(file: PlannedFile, files: seq<PlannedFile>): seq<PlannedFile> {
    if files == [] || AtMost(NameOf(file), NameOf(files[0])) then [file] + files
    else [files[0]] + InsertFile(file, files[1..])
  }

  /** The files in the order of their paths, written out. */
  function SortFiles(files: seq<PlannedFile>): seq<PlannedFile> {
    if files == [] then [] else InsertFile(files[0], SortFiles(files[1..]))
  }

  lemma {:induction false} NamesOfCons(file: PlannedFile, files: seq<PlannedFile>)
    ensures NamesOf([file] + files) == [NameOf(file)] + NamesOf(files)
  {
  }

  lemma {:induction false} InsertFileInsertsName(file: PlannedFile, files: seq<PlannedFile>)
    ensures NamesOf(InsertFile(file, files)) == Insert(NameOf(file), NamesOf(files))
    ensures multiset(InsertFile(file, files)) == multiset{file} + multiset(files)
  {
    if files == [] || AtMost(NameOf(file), NameOf(files[0])) {
      NamesOfCons(file, files);
    } else {
      InsertFileInsertsName(file, files[1..]);
      assert files == [files[0]] + files[1..];
      NamesOfCons(files[0], files[1..]);
      NamesOfCons(files[0], InsertFile(file, files[1..]));
      assert NamesOf(files)[1..] == NamesOf(files[1..]);
    }
  }

  /** Sorting the files sorts their names, and keeps every file. */
  lemma {:induction false} SortFilesSortsNames(files: seq<PlannedFile>)
    ensures NamesOf(SortFiles(files)) == Sort(NamesOf(files))
    ensures multiset(SortFiles(files)) == multiset(files)
  {
    if files != [] {
      SortFilesSortsNames(files[1..]);
      InsertFileInsertsName(files[0], SortFiles(files[1..]));
      assert files == [files[0]] + files[1..];
      NamesOfCons(files[0], files[1..]);
      assert NamesOf(files)[1..] == NamesOf(files[1..]);
    }
  }

  /** Compares the sorted plan with the sorted manifest. */
  method CheckAgainstManifest(files: seq<PlannedFile>, manifest: seq<string>) returns (ok: bool)
    requires NamesOf(files) == Sort(NamesOf(files))
    ensures ok <==> multiset(NamesOf(files)) == multiset(manifest)
  {
    SortedEqualIff(NamesOf(files), manifest);
    return NamesOf(files) == Sort(manifest);
  }

  /** The end of the pass: the plan in order, if it is what the manifest lists. */
  method SortAndCheck(files: seq<PlannedFile>, manifest: seq<string>) returns (plan: Option<seq<PlannedFile>>)
    ensures plan.Some? <==> multiset(NamesOf(files)) == multiset(manifest)
    ensures plan.Some? ==> plan.value == SortFiles(files)
    ensures plan.Some? ==> IsSorted(NamesOf(plan.value)) && multiset(plan.value) == multiset(files)
  {
    SortFilesSortsNames(files);
    SortKeeps(NamesOf(files));
    SortIsIdempotent(NamesOf(files));
    var sorted := SortFiles(files);
    var same := CheckAgainstManifest(sorted, manifest);
    return if same then Some(sorted) else None;
  }

  /** The first `n` entries are in order so far: `files` lists their regular files, `seen`
      their paths, and `declared` is what they declare. */
  ghost predicate IsPlannedSoFar(entries: seq<Entry>, n: nat, files: seq<PlannedFile>, seen: set<Path>, declared: nat)
    requires n <= |entries|
  {
    && (forall k :: 0 <= k < n ==> IsAcceptable(entries[k]) && IsWithinCap(entries[k]))
    && HasDistinctPaths(entries, n)
    && declared == Declared(entries, n) <= ARCHIVE_DECOMPRESSED_CAP
    && files == Planned(entries, n) && seen == PathsOf(entries, n)
  }

  /** The body of the loop below: the entry is charged and planned, or spoils the archive. */
  method PlanNext(entries: seq<Entry>, n: nat, files: seq<PlannedFile>, seen: set<Path>, declared: nat)
    returns (ok: bool, files': seq<PlannedFile>, seen': set<Path>, declared': nat)
    requires n < |entries| && IsPlannedSoFar(entries, n, files, seen, declared)
    ensures ok ==> IsPlannedSoFar(entries, n + 1, files', seen', declared')
    ensures !ok ==>
      || !IsAcceptable(entries[n]) || !IsWithinCap(entries[n])
      || !HasDistinctPaths(entries, n + 1) || Declared(entries, n + 1) > ARCHIVE_DECOMPRESSED_CAP
  {
    var e := entries[n];
    files', seen', declared' := files, seen, declared;
    if e.Corrupt? || e.declared.None? { return false, files', seen', declared'; }
    var verdict := PlanEntry(e.kind, e.name);
    match verdict
    case Reject => ok := false;
    case Skip =>
      SkippingKeepsDistinct(entries, n);
      ok := true;
    case Plan(file) =>
      SeenIffRepeated(entries, n);
      if file.relative in seen { return false, files', seen', declared'; }
      var total := CheckDecompressedCaps(e.declared.value, declared);
      if total.None? { return false, files', seen', declared'; }
      ok, files', seen', declared' := true, files + [file], seen + {file.relative}, total.value;
  }

  /** The loop of the pass: the regular files in archive order, unless an entry is not
      acceptable, a path comes twice or a cap is breached. */
  method PlanEntries(entries: seq<Entry>) returns (plan: Option<seq<PlannedFile>>)
    ensures plan.Some? <==>
      (forall e :: e in entries ==> IsAcceptable(e)) && HasDistinctPaths(entries, |entries|) && FitsTheCaps(entries)
    ensures plan.Some? ==> plan.value == Planned(entries, |entries|)
  {
    var files: seq<PlannedFile> := [];
    var seen: set<Path> := {};
    var declared, i := 0, 0;
    while i < |entries|
      invariant i <= |entries| && IsPlannedSoFar(entries, i, files, seen, declared)
    {
      var ok;
      ok, files, seen, declared := PlanNext(entries, i, files, seen, declared);
      if !ok {
        DeclaredGrows(entries, i + 1, |entries|);
        assert entries[i] in entries;
        return None;
      }
      i := i + 1;
    }
    return Some(files);
  }

  /** The plan of an acceptable archive has the paths of its regular files, each once. */
  lemma {:induction false} PlanListsRegularFiles(entries: seq<Entry>, plan: seq<PlannedFile>)
    requires multiset(plan) == multiset(Planned(entries, |entries|)) && forall e :: e in entries ==> IsAcceptable(e)
    ensures forall p :: p in PathsIn(plan) <==>
      exists k :: 0 <= k < |entries| && entries[k].Entry? && entries[k].kind.Regular? && Classify(entries[k].name) == Some(p)
  {
    var files := Planned(entries, |entries|);
    SameFiles(plan, files);
    SameFiles(files, plan);
    assert PathsIn(plan) == PathsOf(entries, |entries|);
    forall p | p in PathsIn(plan)
      ensures exists k ::
        0 <= k < |entries| && entries[k].Entry? && entries[k].kind.Regular? && Classify(entries[k].name) == Some(p)
    {
      PathIsFrom(entries, |entries|, p);
    }
    forall k | 0 <= k < |entries| && entries[k].Entry? && entries[k].kind.Regular?
      ensures Classify(entries[k].name).Some? && Classify(entries[k].name).value in PathsIn(plan)
    {
      assert IsAcceptable(entries[k]);
      PathIsIn(entries, |entries|, k);
    }
  }

  /** Validates the archive: it is planned exactly when it is valid, and the plan lists
      its regular files, in order, with the modes they will get. */
  method PlanArchive(entries: seq<Entry>, manifest: seq<string>) returns (plan: Option<seq<PlannedFile>>)
    ensures plan.Some? <==> IsValid(entries, manifest)
    ensures plan.Some? ==> plan.value == SortFiles(Planned(entries, |entries|))
    ensures plan.Some? ==> IsSorted(NamesOf(plan.value)) && multiset(plan.value) == multiset(Planned(entries, |entries|))
    ensures plan.Some? ==> forall e :: e in entries ==> e.Entry? && !e.kind.Special? && e.declared.Some?
    ensures plan.Some? ==> forall p :: p in PathsIn(plan.value) <==>
      exists k :: 0 <= k < |entries| && entries[k].Entry? && entries[k].kind.Regular? && Classify(entries[k].name) == Some(p)
    ensures plan.Some? ==> forall f :: f in plan.value ==>
      IsCanonical(f.relative) && f.mode == if f.relative[0] == "lib" then 493 else 420
  {
    var files := PlanEntries(entries);
    if files.None? { return None; }
    plan := SortAndCheck(files.value, manifest);
    PlannedIsCanonical(entries, |entries|);
    if plan.Some? {
      SameFiles(plan.value, files.value);
      PlanListsRegularFiles(entries, plan.value);
    }
  }

  lemma {:induction false} SameFiles(a: seq<PlannedFile>, b: seq<PlannedFile>)
    requires multiset(a) == multiset(b)
    ensures forall f :: f in a ==> f in b
  {
    assert forall f :: f in a ==> f in multiset(a);
  }

  /** Every planned path is canonical; a library is to be executable by all and writable
      by its owner, 0o755, and any other file only readable by all, 0o644. */
  lemma {:induction false} PlannedIsCanonical(entries: seq<Entry>, n: nat)
    requires n <= |entries|
    ensures forall f :: f in Planned(entries, n) ==>
      IsCanonical(f.relative) && f.mode == if f.relative[0] == "lib" then 493 else 420
  {
    if n > 0 {
      PlannedIsCanonical(entries, n - 1);
      if IsPlannable(entries[n - 1]) { ClassifiedIsCanonical(entries[n - 1].name); }
    }
  }
}
