// Pass two of installing an extension: every planned file is written through a
// temporary and a rename, or left in place when it is already there.

module ArchiveWrite {
  import opened ArchivePlan
  import opened EntryPaths
  import opened InstallTrees
  import opened Options
  import opened Paths

  // ----- One file -----

  method RepairExisting(tree: InstallTree, f: Item) returns (outcome: Outcome)
    requires IsIdentical(tree.context, tree.nodes, f)
    modifies tree`nodes, tree`history, tree`faults
    ensures !outcome.Refused?
    ensures tree.faults == if outcome.Done? then old(tree.faults) else old(tree.faults) + 1
    ensures outcome.Done? ==> tree.nodes == old(tree.nodes)[f.path := Installed(tree.context, old(tree.nodes), f)]
    ensures IsAbandoned(tree.context, old(tree.nodes), f, tree.nodes) && HasNoTemp(old(tree.nodes), f.path, tree.nodes)
    ensures old(tree.history) <= tree.history && tree.InFlightSince(|old(tree.history)|, old(tree.nodes), f)
  {
    var ok := tree.SetMode(f.path, f.mode);
    if ok {
      ok := tree.ApplyOwner(f.path);
    }
    return if ok then Done else Faulted;
  }

  /** Every state the tree went through since the first `n` differed at the temporary alone. */
  lemma {:induction false} TempStatesInFlight(tree: InstallTree, n: nat, t: Tree, f: Item, temp: Path)
    requires IsTempFor(temp, f.path) && temp !in WithParents(t, f.path)
    requires n <= |tree.history|
    requires forall k :: n <= k < |tree.history| ==> OnlyTempDiffers(WithParents(t, f.path), temp, tree.history[k])
    ensures tree.InFlightSince(n, t, f)
  {
    forall k | n <= k < |tree.history|
      ensures IsInFlight(tree.context, t, f, tree.history[k])
    {
      TempInFlight(tree.context, t, f, temp, tree.history[k]);
    }
  }

  /** Discards the temporary of a file that could not be placed. */
  method Discard(tree: InstallTree, f: Item, temp: Path, ghost t: Tree)
    requires f.path != [] && temp !in WithParents(t, f.path)
    requires OnlyTempDiffers(WithParents(t, f.path), temp, tree.nodes)
    modifies tree`nodes, tree`history, tree`strays, tree`faults
    ensures tree.strays == old(tree.strays) ==> tree.nodes == WithParents(t, f.path)
    ensures tree.strays != old(tree.strays) ==> tree.nodes == old(tree.nodes)
    ensures old(tree.faults) <= tree.faults
    ensures old(tree.history) <= tree.history && tree.InFlightSince(|old(tree.history)|, t, f)
  {
    assert tree.nodes - {temp} == WithParents(t, f.path);
    ParentsInFlight(tree.context, t, f);
    tree.DiscardTemp(temp);
  }

  /** Fills the fresh temporary and moves it into place, or discards it. */
  method FillAndPlace(tree: InstallTree, f: Item, temp: Path, ghost t: Tree) returns (outcome: Outcome)
    requires IsTempFor(temp, f.path) && temp !in WithParents(t, f.path) && !IsIdentical(tree.context, t, f)
    requires OnlyTempDiffers(WithParents(t, f.path), temp, tree.nodes) && tree.nodes[temp].bytes == []
    modifies tree`nodes, tree`history, tree`strays, tree`faults
    ensures outcome.Done? ==> !(f.path in t && t[f.path].Dir?) && tree.nodes == Put(tree.context, t, f)
    ensures outcome.Refused? ==> f.path in t && t[f.path].Dir?
    ensures !outcome.Done? && tree.strays == old(tree.strays) ==> tree.nodes == WithParents(t, f.path)
    ensures !outcome.Done? && tree.strays != old(tree.strays) ==> OnlyTempDiffers(WithParents(t, f.path), temp, tree.nodes)
    ensures outcome.Done? ==> tree.strays == old(tree.strays) && tree.faults == old(tree.faults)
    ensures outcome.Faulted? ==> tree.faults > old(tree.faults)
    ensures old(tree.history) <= tree.history && tree.InFlightSince(|old(tree.history)|, t, f)
  {
    ghost var n, w := |tree.history|, WithParents(t, f.path);
    var ok := tree.FillTemp(temp, f);
    TempStatesInFlight(tree, n, t, f, temp);
    outcome := Faulted;
    if ok {
      assert tree.nodes - {temp} == w;
      outcome := tree.Place(temp, f.path);
    }
    if outcome.Done? {
      PlacingIsPut(tree.context, t, f, temp);
      PutInFlight(tree.context, t, f);
    } else {
      ParentsInFlight(tree.context, t, f);
      Discard(tree, f, temp, t);
    }
  }

  method WriteAfresh(tree: InstallTree, f: Item) returns (outcome: Outcome)
    requires IsTree(tree.nodes) && f.path != [] && ParentsReal(tree.nodes, f.path)
    requires !IsIdentical(tree.context, tree.nodes, f)
    modifies tree
    ensures outcome.Done? ==> CanPut(old(tree.nodes), f) && tree.nodes == Put(tree.context, old(tree.nodes), f)
    ensures outcome.Refused? ==> !CanPut(old(tree.nodes), f)
    ensures !outcome.Done? ==> IsAbandoned(tree.context, old(tree.nodes), f, tree.nodes)
    ensures !outcome.Done? && tree.strays == old(tree.strays) ==> HasNoTemp(old(tree.nodes), f.path, tree.nodes)
    ensures outcome.Done? ==> tree.strays == old(tree.strays) && tree.faults == old(tree.faults)
    ensures outcome.Faulted? ==> tree.faults > old(tree.faults)
    ensures old(tree.history) <= tree.history && tree.InFlightSince(|old(tree.history)|, old(tree.nodes), f)
  {
    ghost var t := tree.nodes;
    var ok := tree.CreateParents(f.path);
    forall u | IsOnTheWayUp(t, f.path, u)
      ensures IsAbandoned(tree.context, t, f, u) && HasNoTemp(t, f.path, u)
    {
      OnTheWayIsInFlight(tree.context, t, f, u);
    }
    if !ok { return Faulted; }
    var created := tree.CreateTempBeside(f.path);
    if created.None? { return Faulted; }
    var temp := created.value;
    TempInFlight(tree.context, t, f, temp, tree.nodes);
    outcome := FillAndPlace(tree, f, temp, t);
    if !outcome.Done? {
      if tree.nodes == WithParents(t, f.path) {
        ParentsInFlight(tree.context, t, f);
      } else {
        TempInFlight(tree.context, t, f, temp, tree.nodes);
      }
    }
  }

  /** Installs one file: afterwards the tree is the old one with the file put in, or the
      destination still holds what it held. */
  method WriteFile(tree: InstallTree, f: Item) returns (outcome: Outcome)
    requires IsTree(tree.nodes) && f.path != []
    modifies tree
    ensures outcome.Done? ==> CanPut(old(tree.nodes), f) && tree.nodes == Put(tree.context, old(tree.nodes), f)
    ensures outcome.Refused? ==> !CanPut(old(tree.nodes), f)
    ensures !outcome.Done? ==> IsAbandoned(tree.context, old(tree.nodes), f, tree.nodes)
    ensures !outcome.Done? && tree.strays == old(tree.strays) ==> HasNoTemp(old(tree.nodes), f.path, tree.nodes)
    ensures outcome.Done? ==> tree.strays == old(tree.strays) && tree.faults == old(tree.faults)
    ensures outcome.Faulted? ==> tree.faults > old(tree.faults)
    ensures IsIdentical(tree.context, old(tree.nodes), f) ==> tree.temporaries == old(tree.temporaries)
    ensures old(tree.history) <= tree.history && tree.InFlightSince(|old(tree.history)|, old(tree.nodes), f)
  {
    outcome := tree.RequireRealParents(f.path);
    if !outcome.Done? {
      if IsIdentical(tree.context, tree.nodes, f) { ParentIsReal(tree.nodes, f.path); }
      return;
    }
    var found := tree.InspectDestination(f.path, f.bytes);
    if found.Identical? {
      ParentsThere(tree.nodes, f.path);
      outcome := RepairExisting(tree, f);
    } else {
      outcome := WriteAfresh(tree, f);
    }
  }

  // ----- The whole archive -----

  /** The plan looked up by path; a later file with the same path would win. */
  function ByPath(planned: seq<PlannedFile>): map<Path, PlannedFile> {
    if planned == [] then map[]
    else
      var last := planned[|planned| - 1];
      ByPath(planned[..|planned| - 1])[last.relative := last]
  }

  /** What pass two makes of one entry: it looks at the path and never at the kind. */
  function Match(e: Entry, plan: map<Path, PlannedFile>): Option<Item> {
    if e.Entry? && Classify(e.name).Some? && Classify(e.name).value in plan then
      Some(Item(Classify(e.name).value, plan[Classify(e.name).value].mode, e.bytes))
    else
      None
  }

  /** The files that the first `n` entries ask to write, in archive order. */
  function Items(entries: seq<Entry>, plan: map<Path, PlannedFile>, n: nat): seq<Item>
    requires n <= |entries|
  {
    if n == 0 then []
    else
      var found := Match(entries[n - 1], plan);
      Items(entries, plan, n - 1) + (if found.Some? then [found.value] else [])
  }

  function AllItems(entries: seq<Entry>, plan: map<Path, PlannedFile>): seq<Item> {
    Items(entries, plan, |entries|)
  }

  /** The destinations of the first `n` files. */
  function Destinations(items: seq<Item>, n: nat): (paths: seq<Path>)
    requires n <= |items|
    ensures |paths| == n
  {
    if n == 0 then [] else Destinations(items, n - 1) + [items[n - 1].path]
  }

  /** The bytes of the first `n` files. */
  function Total(items: seq<Item>, n: nat): nat
    requires n <= |items|
  {
    if n == 0 then 0 else Total(items, n - 1) + |items[n - 1].bytes|
  }

  predicate FitsAt(items: seq<Item>, n: nat)
    requires n < |items|
  {
    |items[n].bytes| <= ENTRY_DECOMPRESSED_CAP && Total(items, n + 1) <= ARCHIVE_DECOMPRESSED_CAP
  }

  /** The tree once the first `n` files are in. */
  ghost function After(c: Context, t: Tree, items: seq<Item>, n: nat): Tree
    requires n <= |items|
  {
    if n == 0 then t else Put(c, After(c, t, items, n - 1), items[n - 1])
  }

  ghost predicate CanPutAt(c: Context, t: Tree, items: seq<Item>, n: nat)
    requires n < |items|
  {
    CanPut(After(c, t, items, n), items[n])
  }

  ghost predicate IsIdenticalAt(c: Context, t: Tree, items: seq<Item>, n: nat)
    requires n < |items|
  {
    IsIdentical(c, After(c, t, items, n), items[n])
  }

  ghost predicate IsAllIdentical(c: Context, t: Tree, items: seq<Item>) {
    forall m :: 0 <= m < |items| ==> IsIdenticalAt(c, t, items, m)
  }

  /** Each of the first `n` files finds its place free when its turn comes. */
  ghost predicate IsWritable(c: Context, t: Tree, items: seq<Item>, n: nat)
    requires n <= |items|
  {
    forall m :: 0 <= m < n ==> CanPutAt(c, t, items, m)
  }

  lemma {:induction false} WriteOneMore(c: Context, t: Tree, items: seq<Item>, n: nat)
    requires n < |items| && IsWritable(c, t, items, n) && IsTree(After(c, t, items, n))
    requires CanPutAt(c, t, items, n) && items[n].path != []
    ensures IsWritable(c, t, items, n + 1) && IsTree(After(c, t, items, n + 1))
    ensures After(c, t, items, n + 1) == Put(c, After(c, t, items, n), items[n])
  {
    PutIsTree(c, After(c, t, items, n), items[n]);
  }

  ghost predicate IsCrashAt(c: Context, t: Tree, items: seq<Item>, n: nat, u: Tree)
    requires n < |items|
  {
    IsWritable(c, t, items, n) && IsInFlight(c, After(c, t, items, n), items[n], u)
  }

  /** A state a crash may leave during pass two: some files are in, one is on its way. */
  ghost predicate IsCrashState(c: Context, t: Tree, items: seq<Item>, u: Tree) {
    exists n :: 0 <= n < |items| && IsCrashAt(c, t, items, n, u)
  }

  lemma {:induction false} ItemsExtend(entries: seq<Entry>, plan: map<Path, PlannedFile>, n: nat, m: nat)
    requires n <= m <= |entries|
    ensures Items(entries, plan, n) <= Items(entries, plan, m)
  {
    if n < m { ItemsExtend(entries, plan, n, m - 1); }
  }

  /** The entry after the first `i` decides the next file to write. */
  lemma {:induction false} MatchIsNext(entries: seq<Entry>, plan: map<Path, PlannedFile>, i: nat)
    requires i < |entries|
    ensures var n := |Items(entries, plan, i)|;
      if Match(entries[i], plan).None? then |Items(entries, plan, i + 1)| == n <= |AllItems(entries, plan)|
      else
        && |Items(entries, plan, i + 1)| == n + 1 <= |AllItems(entries, plan)|
        && AllItems(entries, plan)[n] == Match(entries[i], plan).value
  {
    ItemsExtend(entries, plan, i + 1, |entries|);
  }

  lemma {:induction false} MatchIsBelowRoot(e: Entry, plan: map<Path, PlannedFile>)
    ensures Match(e, plan).Some? ==> IsCanonical(Match(e, plan).value.path)
  {
    if Match(e, plan).Some? { ClassifiedIsCanonical(e.name); }
  }

  method IndexByPath(planned: seq<PlannedFile>) returns (plan: map<Path, PlannedFile>)
    ensures plan == ByPath(planned)
  {
    plan := map[];
    var i := 0;
    assert planned[..0] == [];
    while i < |planned|
      invariant i <= |planned| && plan == ByPath(planned[..i])
    {
      plan := plan[planned[i].relative := planned[i]];
      assert planned[..i + 1][..i] == planned[..i];
      i := i + 1;
    }
    assert planned[..|planned|] == planned;
  }

  /** Reads at most one byte past whichever limit binds, and charges the budget only
      for an entry that keeps within both. */
  method ReadEntryBounded(bytes: Bytes, budget: nat) returns (contents: Option<Bytes>, left: nat)
    ensures contents.Some? <==> |bytes| <= ENTRY_DECOMPRESSED_CAP && |bytes| <= budget
    ensures contents.Some? ==> contents.value == bytes && left + |bytes| == budget
    ensures contents.None? ==> left == budget
  {
    var limit := if ENTRY_DECOMPRESSED_CAP < budget then ENTRY_DECOMPRESSED_CAP else budget;
    var take := SaturatingAdd(limit, 1);
    var read := if |bytes| < take then bytes else bytes[..take];
    if |read| > limit { return None, budget; }
    return Some(read), budget - |read|;
  }

  method FindPlanned(e: Entry, plan: map<Path, PlannedFile>) returns (f: Option<Item>)
    requires e.Entry?
    ensures f == Match(e, plan)
  {
    var file := ClassifyEntryPath(e.name);
    if file.None? || file.value !in plan { return None; }
    return Some(Item(file.value, plan[file.value].mode, e.bytes));
  }

  datatype Ending = Complete | Broken | OverCap | NotWritten(outcome: Outcome)

  /** How the tree stood when pass two began. */
  datatype Start = Start(nodes: Tree, states: nat, temporaries: nat, strays: nat, faults: nat)

  ghost function StartOf(tree: InstallTree): Start
    reads tree
  {
    Start(tree.nodes, |tree.history|, tree.temporaries, tree.strays, tree.faults)
  }

  /** Every state since the start is one that a crash during pass two may leave, and no
      temporary was created if every file was found identical. */
  ghost predicate HasBeenCareful(tree: InstallTree, start: Start, items: seq<Item>)
    reads tree
  {
    && start.states <= |tree.history|
    && (forall k :: start.states <= k < |tree.history| ==>
          IsCrashState(tree.context, start.nodes, items, tree.history[k]))
    && (IsAllIdentical(tree.context, start.nodes, items) ==> tree.temporaries == start.temporaries)
  }

  /** The first `n` files are in and nothing else has changed. */
  ghost predicate HasWritten(tree: InstallTree, start: Start, items: seq<Item>, n: nat)
    reads tree
  {
    && n <= |items|
    && IsWritable(tree.context, start.nodes, items, n)
    && tree.nodes == After(tree.context, start.nodes, items, n)
    && IsTree(tree.nodes)
    && tree.strays == start.strays && tree.faults == start.faults
  }

  /** The first `n` files are in and the next could not be written: its destination
      keeps what it held, and no temporary is left unless it could not be discarded. */
  ghost predicate HasStopped(tree: InstallTree, start: Start, items: seq<Item>, n: nat, outcome: Outcome)
    reads tree
  {
    && n < |items|
    && IsWritable(tree.context, start.nodes, items, n)
    && IsAbandoned(tree.context, After(tree.context, start.nodes, items, n), items[n], tree.nodes)
    && (tree.strays == start.strays ==> HasNoTemp(After(tree.context, start.nodes, items, n), items[n].path, tree.nodes))
    && !outcome.Done? && (outcome.Refused? ==> !CanPutAt(tree.context, start.nodes, items, n))
    && (outcome.Faulted? ==> tree.faults > start.faults)
  }

  /** One turn of the loop below. */
  method WriteNext(tree: InstallTree, f: Item, ghost start: Start, ghost items: seq<Item>, ghost n: nat)
    returns (outcome: Outcome)
    requires n < |items| && items[n] == f && f.path != []
    requires HasWritten(tree, start, items, n) && HasBeenCareful(tree, start, items)
    modifies tree
    ensures outcome.Done? ==> HasWritten(tree, start, items, n + 1)
    ensures !outcome.Done? ==> HasStopped(tree, start, items, n, outcome)
    ensures HasBeenCareful(tree, start, items) && old(tree.history) <= tree.history
  {
    ghost var c, t := tree.context, start.nodes;
    outcome := WriteFile(tree, f);
    forall k | start.states <= k < |tree.history|
      ensures IsCrashState(c, t, items, tree.history[k])
    {
      if k < |old(tree.history)| {
        assert tree.history[k] == old(tree.history)[k];
      } else {
        assert IsCrashAt(c, t, items, n, tree.history[k]);
      }
    }
    assert IsAllIdentical(c, t, items) ==> IsIdenticalAt(c, t, items, n);
    if outcome.Done? {
      WriteOneMore(c, t, items, n);
    }
  }

  /** What is left of the archive's budget once the first `n` files, none of them over
      its own cap, are read. */
  ghost predicate IsBudget(items: seq<Item>, n: nat, left: nat)
    requires n <= |items|
  {
    && left + Total(items, n) == ARCHIVE_DECOMPRESSED_CAP
    && forall m :: 0 <= m < n ==> |items[m].bytes| <= ENTRY_DECOMPRESSED_CAP
  }

  lemma {:induction false} BudgetCovers(items: seq<Item>, n: nat, left: nat)
    requires n < |items| && IsBudget(items, n, left)
    ensures FitsAt(items, n) <==> |items[n].bytes| <= ENTRY_DECOMPRESSED_CAP && |items[n].bytes| <= left
    ensures FitsAt(items, n) ==> IsBudget(items, n + 1, left - |items[n].bytes|)
  {
  }

  /** What each ending of pass two says about the tree, the caps and the budget, when
      the first `n` files had been written. */
  ghost predicate HasEnded(tree: InstallTree, start: Start, items: seq<Item>, n: nat, left: nat, ending: Ending)
    requires n <= |items|
    reads tree
  {
    match ending
    case Complete => n == |items| && HasWritten(tree, start, items, n) && IsBudget(items, n, left)
    case Broken => HasWritten(tree, start, items, n) && IsBudget(items, n, left)
    case OverCap => n < |items| && !FitsAt(items, n) && HasWritten(tree, start, items, n) && IsBudget(items, n, left)
    case NotWritten(outcome) => HasStopped(tree, start, items, n, outcome) && IsBudget(items, n + 1, left)
  }

  /** The first `i` entries are done with: `written` lists what they put into the tree. */
  ghost predicate IsUnderway(tree: InstallTree, start: Start, entries: seq<Entry>, plan: map<Path, PlannedFile>,
                             i: nat, written: seq<Path>, left: nat)
    reads tree
  {
    var items, n := AllItems(entries, plan), |written|;
    && i <= |entries| && |Items(entries, plan, i)| == n <= |items|
    && written == Destinations(items, n)
    && HasWritten(tree, start, items, n) && IsBudget(items, n, left) && HasBeenCareful(tree, start, items)
  }

  /** The body of the loop below. */
  method WriteEntry(tree: InstallTree, entries: seq<Entry>, i: nat, plan: map<Path, PlannedFile>,
                    written: seq<Path>, budget: nat, ghost start: Start)
    returns (stop: Option<Ending>, more: seq<Path>, left: nat)
    requires i < |entries| && IsUnderway(tree, start, entries, plan, i, written, budget)
    modifies tree
    ensures stop.None? ==> IsUnderway(tree, start, entries, plan, i + 1, more, left)
    ensures stop.Some? ==>
      more == written && HasEnded(tree, start, AllItems(entries, plan), |written|, left, stop.value)
    ensures stop == Some(Broken) <==> entries[i].Corrupt?
    ensures HasBeenCareful(tree, start, AllItems(entries, plan)) && old(tree.history) <= tree.history
  {
    ghost var items, n := AllItems(entries, plan), |written|;
    var e := entries[i];
    if e.Corrupt? { return Some(Broken), written, budget; }
    MatchIsNext(entries, plan, i);
    MatchIsBelowRoot(e, plan);
    var file := FindPlanned(e, plan);
    if file.None? { return None, written, budget; }
    var f := file.value;
    BudgetCovers(items, n, budget);
    var contents, rest := ReadEntryBounded(f.bytes, budget);
    if contents.None? { return Some(OverCap), written, rest; }
    var outcome := WriteNext(tree, f, start, items, n);
    if !outcome.Done? { return Some(NotWritten(outcome)), written, rest; }
    return None, written + [f.path], rest;
  }

  /** Writes every planned file, in archive order. The tree always is the result of the
      written files, give or take the file that could not be written; the budget always
      accounts for every byte read; and a crash at any moment finds every file whole. */
  method WriteAll(tree: InstallTree, entries: seq<Entry>, planned: seq<PlannedFile>)
    returns (ending: Ending, written: seq<Path>, left: nat)
    requires IsTree(tree.nodes)
    modifies tree
    ensures var items := AllItems(entries, ByPath(planned));
      && |written| <= |items| && written == Destinations(items, |written|)
      && HasEnded(tree, old(StartOf(tree)), items, |written|, left, ending)
      && HasBeenCareful(tree, old(StartOf(tree)), items)
    ensures ending.Broken? ==> Corrupt in entries
    ensures !ending.NotWritten? ==> left + Total(AllItems(entries, ByPath(planned)), |written|) == 268_435_456
    ensures old(tree.history) <= tree.history
  {
    ghost var start := StartOf(tree);
    var plan := IndexByPath(planned);
    written := [];
    left := ARCHIVE_DECOMPRESSED_CAP;
    var i := 0;
    while i < |entries|
      invariant IsUnderway(tree, start, entries, plan, i, written, left)
      invariant old(tree.history) <= tree.history
    {
      var stop;
      stop, written, left := WriteEntry(tree, entries, i, plan, written, left, start);
      if stop.Some? { return stop.value, written, left; }
      i := i + 1;
    }
    return Complete, written, left;
  }
}
