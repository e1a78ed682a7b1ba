// What writing a list of files, one after another, makes of the installation tree.

module InstallOutcome {
  import opened ArchiveWrite
  import opened InstallTrees
  import opened Paths

  // ----- How the tree grows -----

  lemma {:induction false} TreesStayTrees(c: Context, t: Tree, items: seq<Item>, n: nat)
    requires IsTree(t) && n <= |items| && IsWritable(c, t, items, n)
    requires forall i :: 0 <= i < n ==> items[i].path != []
    ensures IsTree(After(c, t, items, n))
  {
    if n > 0 {
      TreesStayTrees(c, t, items, n - 1);
      assert CanPutAt(c, t, items, n - 1);
      PutIsTree(c, After(c, t, items, n - 1), items[n - 1]);
    }
  }

  /** Files stay files and directories stay directories; only an absent path becomes either. */
  lemma {:induction false} KindsPersist(c: Context, t: Tree, items: seq<Item>, m: nat, n: nat, q: Path)
    requires m <= n <= |items| && IsWritable(c, t, items, n) && q in After(c, t, items, m)
    ensures q in After(c, t, items, n)
    ensures After(c, t, items, n)[q].Dir? <==> After(c, t, items, m)[q].Dir?
  {
    if m < n {
      KindsPersist(c, t, items, m, n - 1, q);
      assert CanPutAt(c, t, items, n - 1);
    }
  }

  /** A node changes only when a file is written to that very path. */
  lemma {:induction false} NodesPersist(c: Context, t: Tree, items: seq<Item>, m: nat, n: nat, q: Path)
    requires m <= n <= |items| && q in After(c, t, items, m)
    requires forall k :: m <= k < n ==> items[k].path != q
    ensures q in After(c, t, items, n) && After(c, t, items, n)[q] == After(c, t, items, m)[q]
  {
    if m < n { NodesPersist(c, t, items, m, n - 1, q); }
  }

  /** What appears at a path nobody writes to is a directory above a written path. */
  lemma {:induction false} NewNodesAreParents(c: Context, t: Tree, items: seq<Item>, n: nat, q: Path)
    requires n <= |items| && q !in t && forall k :: 0 <= k < n ==> items[k].path != q
    ensures q in After(c, t, items, n) <==> exists k :: 0 <= k < n && IsAbove(q, items[k].path)
    ensures q in After(c, t, items, n) ==> After(c, t, items, n)[q].Dir?
  {
    if n > 0 {
      NewNodesAreParents(c, t, items, n - 1, q);
      WithParentsHolds(After(c, t, items, n - 1), items[n - 1].path);
    }
  }

  ghost predicate IsLastAt(items: seq<Item>, n: nat, i: nat)
    requires n <= |items|
  {
    i < n && forall k :: i < k < n ==> items[k].path != items[i].path
  }

  /** The last file written to a path decides its bytes (up to the digest), mode and owner. */
  lemma {:induction false} LastWriteWins(c: Context, t: Tree, items: seq<Item>, n: nat, i: nat)
    requires n <= |items| && IsLastAt(items, n, i)
    ensures items[i].path in After(c, t, items, n)
    ensures After(c, t, items, n)[items[i].path] == Installed(c, After(c, t, items, i), items[i])
  {
    NodesPersist(c, t, items, i + 1, n, items[i].path);
  }

  /** A completed pass means that no written path is a proper ancestor of another,
      in whatever order the archive lists them, although pass one never looks. */
  lemma {:induction false} CompletedPathsDoNotNest(c: Context, t: Tree, items: seq<Item>, i: nat, j: nat)
    requires IsWritable(c, t, items, |items|) && i < |items| && j < |items|
    ensures !IsAbove(items[i].path, items[j].path)
  {
    var p, q := items[i].path, items[j].path;
    assert CanPutAt(c, t, items, i) && CanPutAt(c, t, items, j);
    if IsAbove(p, q) {
      if i < j {
        KindsPersist(c, t, items, i + 1, j, p);
      } else {
        WithParentsHolds(After(c, t, items, j), q);
        KindsPersist(c, t, items, j + 1, i, p);
      }
    }
  }

  /** In the old tree no file of the archive lacks its place, and no two files want
      places of which one is above the other. */
  ghost predicate HasFreePlaces(t: Tree, items: seq<Item>) {
    && (forall i :: 0 <= i < |items| ==> CanPut(t, items[i]))
    && (forall i, j :: 0 <= i < |items| && 0 <= j < |items| ==> !IsAbove(items[i].path, items[j].path))
  }

  lemma {:induction false} WritablePlacesWereFree(c: Context, t: Tree, items: seq<Item>, i: nat)
    requires IsWritable(c, t, items, |items|) && i < |items|
    ensures CanPut(t, items[i])
  {
    assert CanPutAt(c, t, items, i);
    forall q | q in t
      ensures q in After(c, t, items, i) && (After(c, t, items, i)[q].Dir? <==> t[q].Dir?)
    {
      KindsPersist(c, t, items, 0, i, q);
    }
  }

  /** What a path above or at the next destination holds when its turn comes. */
  lemma {:induction false} OnlyDirectoriesAbove(c: Context, t: Tree, items: seq<Item>, n: nat, q: Path)
    requires n <= |items| && IsWritable(c, t, items, n) && q !in t && q in After(c, t, items, n)
    ensures After(c, t, items, n)[q].Dir? || exists k :: 0 <= k < n && items[k].path == q
  {
    if forall k :: 0 <= k < n ==> items[k].path != q {
      NewNodesAreParents(c, t, items, n, q);
    }
  }

  lemma {:induction false} FileStaysFile(c: Context, t: Tree, items: seq<Item>, k: nat, n: nat)
    requires k < n <= |items| && IsWritable(c, t, items, n)
    ensures items[k].path in After(c, t, items, n) && !After(c, t, items, n)[items[k].path].Dir?
  {
    KindsPersist(c, t, items, k + 1, n, items[k].path);
  }

  lemma {:induction false} FreePlaceIsWritable(c: Context, t: Tree, items: seq<Item>, n: nat)
    requires n < |items| && HasFreePlaces(t, items) && IsWritable(c, t, items, n)
    ensures CanPutAt(c, t, items, n)
  {
    var u, p := After(c, t, items, n), items[n].path;
    assert CanPut(t, items[n]);
    forall q | q in u && (IsAbove(q, p) || q == p)
      ensures u[q].Dir? <==> q != p
    {
      if q in t {
        KindsPersist(c, t, items, 0, n, q);
      } else if q == p {
        if k :| 0 <= k < n && items[k].path == p {
          FileStaysFile(c, t, items, k, n);
        } else {
          NewNodesAreParents(c, t, items, n, q);
        }
      } else {
        OnlyDirectoriesAbove(c, t, items, n, q);
      }
    }
  }

  lemma {:induction false} FreePlacesAreWritable(c: Context, t: Tree, items: seq<Item>, n: nat)
    requires n <= |items| && HasFreePlaces(t, items)
    ensures IsWritable(c, t, items, n)
  {
    if n > 0 {
      FreePlacesAreWritable(c, t, items, n - 1);
      FreePlaceIsWritable(c, t, items, n - 1);
    }
  }

  /** Every file finds its place free when its turn comes exactly when the old tree has
      all the places free and no two of them nest, in whatever order they come. */
  lemma {:induction false} WritableIffPlacesFree(c: Context, t: Tree, items: seq<Item>)
    ensures IsWritable(c, t, items, |items|) <==> HasFreePlaces(t, items)
  {
    if IsWritable(c, t, items, |items|) {
      forall i | 0 <= i < |items| ensures CanPut(t, items[i]) {
        WritablePlacesWereFree(c, t, items, i);
      }
      forall i, j | 0 <= i < |items| && 0 <= j < |items| ensures !IsAbove(items[i].path, items[j].path) {
        CompletedPathsDoNotNest(c, t, items, i, j);
      }
    } else if HasFreePlaces(t, items) {
      FreePlacesAreWritable(c, t, items, |items|);
    }
  }

  // ----- The finished tree -----

  ghost predicate AreDistinct(items: seq<Item>) {
    forall i, j :: 0 <= i < j < |items| ==> items[i].path != items[j].path
  }

  /** No file of the old tree has the digest of a file of the archive but other bytes. */
  ghost predicate HasNoCollision(c: Context, t: Tree, items: seq<Item>) {
    forall i :: 0 <= i < |items| && IsIdentical(c, t, items[i]) ==> t[items[i].path].bytes == items[i].bytes
  }

  /** `u` is `t` overridden at exactly the written paths, with parents created for them. */
  ghost predicate IsOverridden(c: Context, t: Tree, items: seq<Item>, u: Tree) {
    && (forall i :: 0 <= i < |items| ==>
          items[i].path in u && u[items[i].path] == File(items[i].bytes, items[i].mode, c.owner))
    && (forall q :: (forall i :: 0 <= i < |items| ==> items[i].path != q) ==>
          if q in t then q in u && u[q] == t[q]
          else q in u <==> exists i :: 0 <= i < |items| && IsAbove(q, items[i].path))
    && (forall q :: q in u && q !in t && (forall i :: 0 <= i < |items| ==> items[i].path != q) ==> u[q].Dir?)
  }

  /** Before its turn comes, the place of a file looks as it did in the old tree. */
  lemma {:induction false} PlaceIsUntouched(c: Context, t: Tree, items: seq<Item>, n: nat, i: nat)
    requires n <= i < |items| && AreDistinct(items)
    requires forall k :: 0 <= k < n ==> !IsAbove(items[i].path, items[k].path)
    ensures Untouched(t, After(c, t, items, n), items[i].path)
  {
    if n > 0 {
      PlaceIsUntouched(c, t, items, n - 1, i);
      WithParentsHolds(After(c, t, items, n - 1), items[n - 1].path);
      assert items[n - 1].path != items[i].path;
    }
  }

  /** Nothing but the archive's files, their modes and their owner make the new tree. */
  lemma {:induction false} CompletedTreeIsOverridden(c: Context, t: Tree, items: seq<Item>)
    requires IsWritable(c, t, items, |items|) && AreDistinct(items) && HasNoCollision(c, t, items)
    ensures IsOverridden(c, t, items, After(c, t, items, |items|))
  {
    var u := After(c, t, items, |items|);
    forall i | 0 <= i < |items|
      ensures items[i].path in u && u[items[i].path] == File(items[i].bytes, items[i].mode, c.owner)
    {
      assert IsLastAt(items, |items|, i);
      LastWriteWins(c, t, items, |items|, i);
      forall k | 0 <= k < i ensures !IsAbove(items[i].path, items[k].path) {
        CompletedPathsDoNotNest(c, t, items, i, k);
      }
      PlaceIsUntouched(c, t, items, i, i);
    }
    forall q | forall i :: 0 <= i < |items| ==> items[i].path != q
      ensures if q in t then q in u && u[q] == t[q]
        else q in u <==> exists i :: 0 <= i < |items| && IsAbove(q, items[i].path)
      ensures q in u && q !in t ==> u[q].Dir?
    {
      if q in t { NodesPersist(c, t, items, 0, |items|, q); } else { NewNodesAreParents(c, t, items, |items|, q); }
    }
  }

  // ----- Installing again -----

  /** Installing `f` again is possible and changes nothing. */
  ghost predicate IsInPlace(c: Context, t: Tree, f: Item) {
    CanPut(t, f) && Put(c, t, f) == t
  }

  /** All the files are in place. */
  ghost predicate IsInstalled(c: Context, t: Tree, items: seq<Item>) {
    forall i :: 0 <= i < |items| ==> IsInPlace(c, t, items[i])
  }

  lemma {:induction false} IdenticalIsInPlace(c: Context, t: Tree, f: Item)
    requires IsTree(t) && IsIdentical(c, t, f) && t[f.path].mode == f.mode && t[f.path].owner == c.owner
    ensures IsInPlace(c, t, f)
  {
    ParentsThere(t, f.path);
    ParentIsReal(t, f.path);
    assert t[f.path := t[f.path]] == t;
  }

  lemma {:induction false} NothingToDo(c: Context, u: Tree, items: seq<Item>, n: nat)
    requires n <= |items| && IsInstalled(c, u, items)
    ensures After(c, u, items, n) == u
  {
    if n > 0 {
      NothingToDo(c, u, items, n - 1);
      assert IsInPlace(c, u, items[n - 1]);
    }
  }

  lemma {:induction false} InPlaceIsIdentical(c: Context, t: Tree, f: Item)
    requires IsInPlace(c, t, f)
    ensures IsIdentical(c, t, f)
  {
    assert Put(c, t, f)[f.path] == Installed(c, t, f) && f.path in Put(c, t, f);
  }

  /** Installing files that are in place finds all of them identical, so it creates no
      temporary, and is never refused; the tree stays exactly as it was. */
  lemma {:induction false} InstalledStays(c: Context, u: Tree, items: seq<Item>)
    requires IsInstalled(c, u, items)
    ensures After(c, u, items, |items|) == u && IsWritable(c, u, items, |items|) && IsAllIdentical(c, u, items)
  {
    NothingToDo(c, u, items, |items|);
    forall i | 0 <= i < |items|
      ensures CanPutAt(c, u, items, i) && IsIdenticalAt(c, u, items, i)
    {
      NothingToDo(c, u, items, i);
      assert IsInPlace(c, u, items[i]);
      InPlaceIsIdentical(c, u, items[i]);
    }
  }

  /** After a completed pass all the files are in place. */
  lemma {:induction false} CompletedIsInstalled(c: Context, t: Tree, items: seq<Item>)
    requires AreDistinct(items) && IsWritable(c, t, items, |items|) && IsTree(After(c, t, items, |items|))
    ensures IsInstalled(c, After(c, t, items, |items|), items)
  {
    var u := After(c, t, items, |items|);
    forall i | 0 <= i < |items|
      ensures IsInPlace(c, u, items[i])
    {
      assert IsLastAt(items, |items|, i);
      LastWriteWins(c, t, items, |items|, i);
      IdenticalIsInPlace(c, u, items[i]);
    }
  }

  /** Installing the same archive again changes nothing. */
  lemma {:induction false} ReinstallChangesNothing(c: Context, t: Tree, items: seq<Item>)
    requires IsTree(t) && AreDistinct(items) && IsWritable(c, t, items, |items|)
    requires forall i :: 0 <= i < |items| ==> items[i].path != []
    ensures var u := After(c, t, items, |items|);
      After(c, u, items, |items|) == u && IsWritable(c, u, items, |items|) && IsAllIdentical(c, u, items)
  {
    TreesStayTrees(c, t, items, |items|);
    CompletedIsInstalled(c, t, items);
    InstalledStays(c, After(c, t, items, |items|), items);
  }

  // ----- Crashes -----

  /** What a planned path may hold at any moment: its old node, or the complete new file
      with its final mode and owner, or its old bytes while only metadata is repaired.
      (A path that is the parent of another planned path may have become a directory, and
      a path named like a temporary may hold one.) */
  ghost predicate IsWhole(c: Context, t: Tree, items: seq<Item>, u: Tree, i: nat)
    requires i < |items|
  {
    var p := items[i].path;
    || Untouched(t, u, p)
    || (p in u && u[p].File? && c.digest(u[p].bytes) == c.digest(items[i].bytes)
          && u[p].mode == items[i].mode && u[p].owner == c.owner)
    || IsUnderRepair(c, t, items[i], u)
    || HasBecomeParent(t, u, items, i)
    || (p !in t && !IsOrdinary(items[i]))
  }

  ghost predicate HasBecomeParent(t: Tree, u: Tree, items: seq<Item>, i: nat)
    requires i < |items|
  {
    var p := items[i].path;
    p !in t && p in u && u[p].Dir? && exists k :: 0 <= k < |items| && IsAbove(p, items[k].path)
  }

  lemma {:induction false} WholeAfter(c: Context, t: Tree, items: seq<Item>, n: nat, i: nat)
    requires n <= |items| && i < |items| && AreDistinct(items)
    requires IsWritable(c, t, items, n)
    ensures n <= i ==> Untouched(t, After(c, t, items, n), items[i].path) || HasBecomeParent(t, After(c, t, items, n), items, i)
    ensures i < n ==>
      && items[i].path in After(c, t, items, n)
      && After(c, t, items, n)[items[i].path] == Installed(c, After(c, t, items, i), items[i])
  {
    if i < n {
      assert IsLastAt(items, n, i);
      LastWriteWins(c, t, items, n, i);
    } else if n > 0 {
      WholeAfter(c, t, items, n - 1, i);
      WithParentsHolds(After(c, t, items, n - 1), items[n - 1].path);
      assert items[n - 1].path != items[i].path;
    }
  }

  lemma {:induction false} WholeInFlight(c: Context, t: Tree, items: seq<Item>, n: nat, u: Tree, i: nat)
    requires n < |items| && i < |items| && AreDistinct(items) && IsCrashAt(c, t, items, n, u)
    ensures IsWhole(c, t, items, u, i)
  {
    var w, p := After(c, t, items, n), items[i].path;
    WholeAfter(c, t, items, n, i);
    if i != n {
      assert p != items[n].path;
      if p !in w && p in u {
        assert IsAbove(p, items[n].path) || IsNewTemp(w, items[n].path, u, p);
      }
    }
  }

  /** A path in `u` that is neither old, nor planned, nor above a planned path. */
  ghost predicate IsForeign(t: Tree, items: seq<Item>, u: Tree, q: Path) {
    q in u && q !in t && forall i :: 0 <= i < |items| ==> q != items[i].path && !IsAbove(q, items[i].path)
  }

  lemma {:induction false} ForeignIsTemp(c: Context, t: Tree, items: seq<Item>, n: nat, u: Tree, q: Path)
    requires n < |items| && IsCrashAt(c, t, items, n, u) && IsForeign(t, items, u, q)
    ensures IsNewTemp(After(c, t, items, n), items[n].path, u, q)
  {
    NewNodesAreParents(c, t, items, n, q);
  }

  /** Every planned path is whole; every other old path is as it was, and all that is
      new elsewhere is created parents and at most one temporary beside a planned path. */
  ghost predicate IsSafeState(c: Context, t: Tree, items: seq<Item>, u: Tree) {
    && (forall i :: 0 <= i < |items| ==> IsWhole(c, t, items, u, i))
    && (forall q :: q in t && (forall i :: 0 <= i < |items| ==> items[i].path != q) ==> q in u && u[q] == t[q])
    && (forall q :: IsForeign(t, items, u, q) ==> exists i :: 0 <= i < |items| && IsTempFor(q, items[i].path))
    && (forall q, r :: IsForeign(t, items, u, q) && IsForeign(t, items, u, r) ==> q == r)
  }

  /** A crash at any moment of pass two leaves such a state. */
  lemma {:induction false} CrashLeavesFilesWhole(c: Context, t: Tree, items: seq<Item>, u: Tree)
    requires AreDistinct(items) && IsCrashState(c, t, items, u)
    ensures IsSafeState(c, t, items, u)
  {
    var n :| 0 <= n < |items| && IsCrashAt(c, t, items, n, u);
    forall i | 0 <= i < |items|
      ensures IsWhole(c, t, items, u, i)
    {
      WholeInFlight(c, t, items, n, u, i);
    }
    forall q | q in t && forall i :: 0 <= i < |items| ==> items[i].path != q
      ensures q in u && u[q] == t[q]
    {
      NodesPersist(c, t, items, 0, n, q);
    }
    forall q | IsForeign(t, items, u, q)
      ensures IsNewTemp(After(c, t, items, n), items[n].path, u, q)
    {
      ForeignIsTemp(c, t, items, n, u, q);
    }
  }

  /** So no file is ever seen half written: one at a planned path has the bytes that it had,
      or those of the archive up to the digest. */
  lemma {:induction false} NoHalfWrittenFile(c: Context, t: Tree, items: seq<Item>, u: Tree, i: nat)
    requires IsSafeState(c, t, items, u) && i < |items| && IsOrdinary(items[i])
    requires items[i].path in u && u[items[i].path].File?
    ensures var p := items[i].path;
      || (p in t && t[p].File? && u[p].bytes == t[p].bytes)
      || c.digest(u[p].bytes) == c.digest(items[i].bytes)
  {
    assert IsWhole(c, t, items, u, i);
  }

  /** And what else is new lies in the directory of a planned path, under a temporary name. */
  lemma {:induction false} StrayLiesBeside(c: Context, t: Tree, items: seq<Item>, u: Tree, q: Path)
    requires IsSafeState(c, t, items, u) && IsForeign(t, items, u, q)
    ensures exists i, middle ::
      0 <= i < |items| && items[i].path != [] && q == Parent(items[i].path) + [".pg-embed-" + middle + ".tmp"]
  {
    var i :| 0 <= i < |items| && IsTempFor(q, items[i].path);
    TempNameIff(q[|q| - 1]);
    var middle :| q[|q| - 1] == ".pg-embed-" + middle + ".tmp";
    assert q == Parent(q) + [q[|q| - 1]];
  }

  // ----- Failures -----

  /** The first `n` files are in and file `n` keeps its bytes; otherwise only parents
      have been created. */
  ghost predicate HasChangedOnly(c: Context, t: Tree, items: seq<Item>, n: nat, u: Tree)
    requires n < |items|
  {
    && (forall i :: 0 <= i < n ==>
          items[i].path in u && u[items[i].path] == Installed(c, After(c, t, items, i), items[i]))
    && (Untouched(t, u, items[n].path) || HasBecomeParent(t, u, items, n) || IsUnderRepair(c, t, items[n], u))
    && (forall q :: q in t && (forall i :: 0 <= i <= n ==> items[i].path != q) ==> q in u && u[q] == t[q])
    && (forall q :: q in u && q !in t && (forall i :: 0 <= i <= n ==> items[i].path != q) ==>
          u[q].Dir? && exists i :: 0 <= i <= n && IsAbove(q, items[i].path))
  }

  /** A pass that stops at file `n`, its temporary discarded, has changed exactly the
      files written so far and created parents; the failing file keeps its bytes. */
  lemma {:induction false} FailureKeepsTheRest(c: Context, t: Tree, items: seq<Item>, n: nat, u: Tree)
    requires n < |items| && AreDistinct(items) && IsWritable(c, t, items, n)
    requires IsAbandoned(c, After(c, t, items, n), items[n], u) && HasNoTemp(After(c, t, items, n), items[n].path, u)
    ensures HasChangedOnly(c, t, items, n, u)
  {
    var w := After(c, t, items, n);
    forall i | 0 <= i < n
      ensures items[i].path in u && u[items[i].path] == Installed(c, After(c, t, items, i), items[i])
    {
      WholeAfter(c, t, items, n, i);
      assert items[i].path != items[n].path;
    }
    WholeAfter(c, t, items, n, n);
    forall q | forall i :: 0 <= i <= n ==> items[i].path != q
      ensures q in t ==> q in u && u[q] == t[q]
      ensures q in u && q !in t ==> u[q].Dir? && exists i :: 0 <= i <= n && IsAbove(q, items[i].path)
    {
      assert items[n].path != q;
      if q in t { NodesPersist(c, t, items, 0, n, q); } else { NewNodesAreParents(c, t, items, n, q); }
    }
  }
}
