// The installation tree that an extension is written into, one rename at a time.

module InstallTrees {
  import opened Options
  import opened Paths
  import opened Text

  datatype Owner = Owner(uid: nat, gid: nat)

  /** `Other` is whatever cannot be opened and read as a regular file. */
  datatype Node = Dir | File(bytes: Bytes, mode: nat, owner: Owner) | Link | Other

  /** Everything below the installation root; the root itself is a directory. */
  type Tree = map<Path, Node>

  /** One file to install. */
  datatype Item = Item(path: Path, mode: nat, bytes: Bytes)

  /** The owner that installed files take, and the digest that compares contents. */
  datatype Context = Context(owner: Owner, digest: Bytes -> int)

  const TEMP_NAME_ATTEMPTS := 16

  /** Entries hang below directories only, as in any file system. */
  predicate IsTree(t: Tree) {
    [] !in t && forall q {:trigger Parent(q)} :: q in t && |q| > 1 ==> Parent(q) in t && t[Parent(q)].Dir?
  }

  /** No directory on the way to `p` is missing its place to a file or a link. */
  ghost predicate ParentsReal(t: Tree, p: Path) {
    forall q {:trigger IsAbove(q, p)} :: IsAbove(q, p) && q in t ==> t[q].Dir?
  }

  lemma {:induction false} AboveParent(p: Path)
    requires |p| > 1
    ensures forall q :: IsAbove(q, p) <==> IsAbove(q, Parent(p)) || q == Parent(p)
  {
    forall q
      ensures IsAbove(q, p) <==> IsAbove(q, Parent(p)) || q == Parent(p)
    {
      if q != [] && |q| < |p| - 1 {
        assert p[..|q|] == Parent(p)[..|q|];
      }
    }
  }

  /** The tree with every missing directory above `p` created. */
  ghost function WithParents(t: Tree, p: Path): (w: Tree)
    ensures forall q {:trigger q in w} :: q in t ==> q in w
    ensures forall q {:trigger w[q]} :: q in t ==> w[q] == t[q]
    decreases |p|
  {
    if |p| <= 1 then t
    else
      var w := WithParents(t, Parent(p));
      if Parent(p) in w then w else w[Parent(p) := Dir]
  }

  lemma {:induction false} WithParentsHolds(t: Tree, p: Path)
    ensures forall q {:trigger q in WithParents(t, p)} :: q in WithParents(t, p) <==> q in t || IsAbove(q, p)
    ensures forall q {:trigger WithParents(t, p)[q]} :: q in WithParents(t, p) && q !in t ==> WithParents(t, p)[q] == Dir
    decreases |p|
  {
    if |p| > 1 {
      AboveParent(p);
      WithParentsHolds(t, Parent(p));
    }
  }

  // ----- What installing one file does -----

  ghost predicate IsIdentical(c: Context, t: Tree, f: Item) {
    f.path in t && t[f.path].File? && c.digest(t[f.path].bytes) == c.digest(f.bytes)
  }

  /** The file that ends up at the destination: an identical copy keeps its bytes. */
  ghost function Installed(c: Context, t: Tree, f: Item): Node {
    File(if IsIdentical(c, t, f) then t[f.path].bytes else f.bytes, f.mode, c.owner)
  }

  ghost predicate CanPut(t: Tree, f: Item) {
    ParentsReal(t, f.path) && !(f.path in t && t[f.path].Dir?)
  }

  ghost function Put(c: Context, t: Tree, f: Item): Tree {
    WithParents(t, f.path)[f.path := Installed(c, t, f)]
  }

  predicate IsTempName(name: string) {
    |name| >= 14 && name[..10] == ".pg-embed-" && name[|name| - 4..] == ".tmp"
  }

  lemma {:induction false} TempNameIff(name: string)
    ensures IsTempName(name) <==> exists middle :: name == ".pg-embed-" + middle + ".tmp"
  {
    if IsTempName(name) {
      assert name == ".pg-embed-" + name[10..|name| - 4] + ".tmp";
    }
    forall middle | name == ".pg-embed-" + middle + ".tmp" ensures IsTempName(name) {
      assert name[..10] == ".pg-embed-" && name[|name| - 4..] == ".tmp";
    }
  }

  /** A temporary beside `p`. */
  predicate IsTempFor(q: Path, p: Path) {
    q != [] && |q| == |p| && Parent(q) == Parent(p) && IsTempName(q[|q| - 1])
  }

  /** The archive itself does not use the names that temporaries get. */
  predicate IsOrdinary(f: Item) {
    f.path != [] && !IsTempName(f.path[|f.path| - 1])
  }

  ghost predicate Untouched(t: Tree, u: Tree, q: Path) {
    if q in t then q in u && u[q] == t[q] else q !in u
  }

  /** An identical copy whose mode and owner are being brought into line. */
  ghost predicate IsUnderRepair(c: Context, t: Tree, f: Item, u: Tree) {
    IsIdentical(c, t, f) && f.path in u && u[f.path].File? && u[f.path].bytes == t[f.path].bytes
  }

  predicate IsNewTemp(t: Tree, p: Path, u: Tree, q: Path) {
    q in u && q !in t && IsTempFor(q, p) && u[q].File?
  }

  /** Away from the destination, only new parents and one temporary have appeared. */
  ghost predicate OnlyAdds(t: Tree, p: Path, u: Tree) {
    && (forall q :: q in t && q != p ==> q in u && u[q] == t[q])
    && (forall q :: q in u && q !in t && q != p ==> (IsAbove(q, p) && u[q].Dir?) || IsNewTemp(t, p, u, q))
    && (forall q, r :: IsNewTemp(t, p, u, q) && IsNewTemp(t, p, u, r) ==> q == r)
  }

  /** What a failed installation of `f` leaves: the destination keeps its old bytes.
      (A destination that was absent and is itself named like a temporary may be taken
      for one.) */
  ghost predicate IsAbandoned(c: Context, t: Tree, f: Item, u: Tree) {
    && OnlyAdds(t, f.path, u)
    && (Untouched(t, u, f.path) || IsUnderRepair(c, t, f, u) || IsNewTemp(t, f.path, u, f.path))
  }

  /** A state a crash may leave while `f` is being installed into `t`. The new file is
      never seen half written, nor with another mode or owner. */
  ghost predicate IsInFlight(c: Context, t: Tree, f: Item, u: Tree) {
    || IsAbandoned(c, t, f, u)
    || (OnlyAdds(t, f.path, u) && f.path in u && u[f.path] == Installed(c, t, f))
  }

  ghost predicate HasNoTemp(t: Tree, p: Path, u: Tree) {
    forall q :: q in u ==> !IsNewTemp(t, p, u, q)
  }

  lemma {:induction false} NothingBelowAbsent(t: Tree, p: Path, k: nat, m: nat)
    requires IsTree(t) && 0 < k <= m < |p| && p[..k] !in t
    ensures p[..m] !in t
  {
    if k < m {
      NothingBelowAbsent(t, p, k, m - 1);
      assert Parent(p[..m]) == p[..m - 1];
    }
  }

  lemma {:induction false} ParentIsReal(t: Tree, p: Path)
    requires IsTree(t) && p in t
    ensures ParentsReal(t, p)
    decreases |p|
  {
    forall q | IsAbove(q, p) && q in t
      ensures t[q].Dir?
    {
      assert |p| > 1 && Parent(p) in t;
      if q != Parent(p) {
        assert IsAbove(q, Parent(p)) by { assert Parent(p)[..|q|] == p[..|q|]; }
        ParentIsReal(t, Parent(p));
      }
    }
  }

  lemma {:induction false} PresentBelow(t: Tree, p: Path, k: nat)
    requires IsTree(t) && p in t && 0 < k <= |p|
    ensures p[..k] in t
    decreases |p| - k
  {
    if k == |p| {
      assert p[..k] == p;
    } else {
      PresentBelow(t, p, k + 1);
      assert Parent(p[..k + 1]) == p[..k];
    }
  }

  /** Nothing needs creating above a path that is there. */
  lemma {:induction false} ParentsThere(t: Tree, p: Path)
    requires IsTree(t) && p in t
    ensures WithParents(t, p) == t
  {
    WithParentsHolds(t, p);
    forall q | IsAbove(q, p)
      ensures q in t
    {
      PresentBelow(t, p, |q|);
    }
    assert WithParents(t, p).Keys == t.Keys;
  }

  lemma {:induction false} WithParentsIsTree(t: Tree, p: Path)
    requires IsTree(t) && ParentsReal(t, p)
    ensures IsTree(WithParents(t, p))
  {
    WithParentsHolds(t, p);
    var u := WithParents(t, p);
    forall q | q in u && |q| > 1
      ensures Parent(q) in u && u[Parent(q)].Dir?
    {
      if IsAbove(q, p) {
        assert IsAbove(Parent(q), p) by { assert Parent(q) == p[..|q| - 1]; }
      }
    }
  }

  lemma {:induction false} PutIsTree(c: Context, t: Tree, f: Item)
    requires IsTree(t) && CanPut(t, f) && f.path != []
    ensures IsTree(Put(c, t, f))
  {
    WithParentsHolds(t, f.path);
    WithParentsIsTree(t, f.path);
    var w, u := WithParents(t, f.path), Put(c, t, f);
    forall q | q in u && |q| > 1
      ensures Parent(q) in u && u[Parent(q)].Dir?
    {
      if q == f.path {
        assert IsAbove(Parent(q), f.path);
      } else {
        assert q in w;
        assert Parent(q) in w && w[Parent(q)].Dir?;
      }
    }
  }

  // ----- Steps on the way -----

  /** Any state in between differs from `base` at the temporary alone. */
  ghost predicate OnlyTempDiffers(base: Tree, temp: Path, u: Tree) {
    temp in u && u[temp].File? && u == base[temp := u[temp]]
  }

  lemma {:induction false} CreatedParentsInFlight(c: Context, t: Tree, f: Item, k: nat)
    requires 0 < k <= |f.path|
    ensures IsAbandoned(c, t, f, WithParents(t, f.path[..k])) && HasNoTemp(t, f.path, WithParents(t, f.path[..k]))
  {
    WithParentsHolds(t, f.path[..k]);
    var p := f.path;
    forall q | IsAbove(q, p[..k])
      ensures IsAbove(q, p)
    {
      assert p[..k][..|q|] == p[..|q|];
    }
  }

  /** Some of the parents of `p` have been created. */
  ghost predicate IsOnTheWayUp(t: Tree, p: Path, u: Tree) {
    exists k :: 0 < k <= |p| && u == WithParents(t, p[..k])
  }

  lemma {:induction false} OnTheWayIsInFlight(c: Context, t: Tree, f: Item, u: Tree)
    requires IsOnTheWayUp(t, f.path, u)
    ensures IsAbandoned(c, t, f, u) && HasNoTemp(t, f.path, u)
  {
    var k :| 0 < k <= |f.path| && u == WithParents(t, f.path[..k]);
    CreatedParentsInFlight(c, t, f, k);
  }

  lemma {:induction false} ParentsInFlight(c: Context, t: Tree, f: Item)
    requires f.path != []
    ensures IsAbandoned(c, t, f, WithParents(t, f.path)) && HasNoTemp(t, f.path, WithParents(t, f.path))
  {
    CreatedParentsInFlight(c, t, f, |f.path|);
    assert f.path[..|f.path|] == f.path;
  }

  lemma {:induction false} CreateOneMore(t: Tree, p: Path, k: nat)
    requires 0 < k < |p|
    ensures var w := WithParents(t, p[..k]);
      WithParents(t, p[..k + 1]) == if p[..k] in w then w else w[p[..k] := Dir]
  {
    assert Parent(p[..k + 1]) == p[..k];
  }

  lemma {:induction false} TempInFlight(c: Context, t: Tree, f: Item, temp: Path, u: Tree)
    requires IsTempFor(temp, f.path) && temp !in WithParents(t, f.path)
    requires OnlyTempDiffers(WithParents(t, f.path), temp, u)
    ensures IsAbandoned(c, t, f, u)
  {
    WithParentsHolds(t, f.path);
  }

  lemma {:induction false} PutInFlight(c: Context, t: Tree, f: Item)
    ensures IsInFlight(c, t, f, Put(c, t, f))
  {
    WithParentsHolds(t, f.path);
  }

  /** Moving the full temporary into place gives exactly the new tree. */
  lemma {:induction false} PlacingIsPut(c: Context, t: Tree, f: Item, temp: Path)
    requires temp !in WithParents(t, f.path) && !IsIdentical(c, t, f)
    ensures (WithParents(t, f.path) - {temp})[f.path := File(f.bytes, f.mode, c.owner)] == Put(c, t, f)
  {
  }

  // ----- The tree as it changes -----

  datatype Destination = Identical | Absent | NotRegular | Different | Unreadable

  /** What happened: `Refused` is decided by the tree, `Faulted` by the operating system. */
  datatype Outcome = Done | Refused | Faulted

  class InstallTree {
    const context: Context
    const process: nat
    var nodes: Tree
    var counter: nat              // numbers the names of temporaries
    ghost var history: seq<Tree>  // every state the tree has been in, oldest first
    ghost var temporaries: nat    // temporaries created so far
    ghost var strays: nat         // temporaries that could not be discarded
    ghost var faults: nat         // operations the system refused

    constructor (context: Context, process: nat, nodes: Tree)
      ensures this.context == context && this.nodes == nodes && history == [nodes] && temporaries == strays == faults == 0
    {
      this.context, this.process, this.nodes, counter := context, process, nodes, 0;
      history, temporaries, strays, faults := [nodes], 0, 0, 0;
    }

    /** Every state after the first `n` is one a crash may leave while `f` goes into `t`. */
    ghost predicate InFlightSince(n: nat, t: Tree, f: Item)
      reads this
    {
      n <= |history| && forall k :: n <= k < |history| ==> IsInFlight(context, t, f, history[k])
    }

    method Become(u: Tree)
      modifies `nodes, `history
      ensures nodes == u && history == old(history) + [u]
    {
      nodes := u;
      history := history + [u];
    }

    /** Whether the system refuses the next operation, for reasons not in the tree. */
    method SystemFails() returns (fails: bool)
      modifies `faults
      ensures faults == if fails then old(faults) + 1 else old(faults)
    {
      fails := *;
      if fails { faults := faults + 1; }
    }

    /** Refuses a destination below anything but real directories; a parent that cannot be
        inspected is a fault. */
    method RequireRealParents(p: Path) returns (outcome: Outcome)
      requires IsTree(nodes) && p != []
      modifies `faults
      ensures !outcome.Faulted? ==> (outcome.Done? <==> ParentsReal(nodes, p))
      ensures faults == if outcome.Faulted? then old(faults) + 1 else old(faults)
    {
      var k := 1;
      while k < |p|
        invariant 1 <= k <= |p| && faults == old(faults)
        invariant forall q :: IsAbove(q, p) && |q| < k && q in nodes ==> nodes[q].Dir?
      {
        var current := p[..k];
        var fails := SystemFails();
        if fails { return Faulted; }
        if current !in nodes {
          forall q | IsAbove(q, p) && q in nodes
            ensures nodes[q].Dir?
          {
            if |q| >= k { NothingBelowAbsent(nodes, p, k, |q|); }
          }
          break;
        }
        if !nodes[current].Dir? {
          assert IsAbove(current, p);
          return Refused;
        }
        k := k + 1;
      }
      return Done;
    }

    /** Creates the missing parents; a fault may leave only the upper ones. */
    method CreateParents(p: Path) returns (ok: bool)
      requires IsTree(nodes) && p != [] && ParentsReal(nodes, p)
      modifies `nodes, `history, `faults
      ensures ok ==> nodes == WithParents(old(nodes), p)
      ensures faults == if ok then old(faults) else old(faults) + 1
      ensures IsOnTheWayUp(old(nodes), p, nodes)
      ensures old(history) <= history
      ensures forall k :: |old(history)| <= k < |history| ==> IsOnTheWayUp(old(nodes), p, history[k])
    {
      var k := 1;
      assert WithParents(nodes, p[..1]) == nodes;
      while k < |p|
        invariant 1 <= k <= |p|
        invariant nodes == WithParents(old(nodes), p[..k])
        invariant old(history) <= history && faults == old(faults)
        invariant forall k :: |old(history)| <= k < |history| ==> IsOnTheWayUp(old(nodes), p, history[k])
      {
        CreateOneMore(old(nodes), p, k);
        if p[..k] !in nodes {
          var fails := SystemFails();
          if fails { return false; }
          Become(nodes[p[..k] := Dir]);
        }
        k := k + 1;
        assert IsOnTheWayUp(old(nodes), p, nodes);
      }
      assert p[..|p|] == p;
      return true;
    }

    method InspectDestination(p: Path, bytes: Bytes) returns (d: Destination)
      ensures d.Identical? <==> p in nodes && nodes[p].File? && context.digest(nodes[p].bytes) == context.digest(bytes)
      ensures d.Absent? <==> p !in nodes
      ensures d.Different? <==> p in nodes && nodes[p].File? && !d.Identical?
      ensures p in nodes && nodes[p].Dir? ==> d.NotRegular?
      ensures p in nodes && nodes[p].Link? ==> d.Unreadable?
    {
      if p !in nodes { return Absent; }
      match nodes[p]
      case Link => return Unreadable;
      case Dir => return NotRegular;
      case Other => if * { return NotRegular; } else { return Unreadable; }
      case File(found, _, _) =>
        return if context.digest(found) == context.digest(bytes) then Identical else Different;
    }

    method TempName() returns (name: string)
      modifies `counter
      ensures IsTempName(name) && counter == old(counter) + 1
    {
      var nanos: nat := *;
      var middle := Decimal(process) + "-" + Decimal(nanos) + "-" + Decimal(counter);
      counter := counter + 1;
      name := ".pg-embed-" + middle + ".tmp";
      assert name[..10] == ".pg-embed-";
    }

    /** Creates a temporary under a name nothing has, or gives up, which counts as a fault. */
    method CreateTempBeside(p: Path) returns (temp: Option<Path>)
      requires p != []
      modifies this
      ensures strays == old(strays) && faults == if temp.Some? then old(faults) else old(faults) + 1
      ensures old(counter) < counter <= old(counter) + 16
      ensures temp.None? ==> nodes == old(nodes) && history == old(history)
      ensures temp.Some? ==> IsTempFor(temp.value, p) && temp.value !in old(nodes)
      ensures temp.Some? ==> OnlyTempDiffers(old(nodes), temp.value, nodes) && nodes[temp.value].bytes == []
      ensures temp.Some? ==> history == old(history) + [nodes]
    {
      var attempt := 0;
      while attempt < TEMP_NAME_ATTEMPTS
        invariant nodes == old(nodes) && history == old(history) && strays == old(strays) && faults == old(faults)
        invariant attempt <= TEMP_NAME_ATTEMPTS && counter == old(counter) + attempt
      {
        var name := TempName();
        var candidate := Parent(p) + [name];
        assert Parent(candidate) == Parent(p);
        if candidate !in nodes {
          var fails := SystemFails();
          if fails { return None; }
          var mode: nat := *;
          var owner: Owner := *;
          Become(nodes[candidate := File([], mode, owner)]);
          temporaries := temporaries + 1;
          return Some(candidate);
        }
        attempt := attempt + 1;
      }
      faults := faults + 1;
      return None;
    }

    /** Writes `bytes` in whatever portions the system takes, then stamps mode and owner. */
    method FillTemp(temp: Path, f: Item) returns (ok: bool)
      requires temp in nodes && nodes[temp].File? && nodes[temp].bytes == []
      modifies `nodes, `history, `faults
      ensures OnlyTempDiffers(old(nodes), temp, nodes)
      ensures faults == if ok then old(faults) else old(faults) + 1
      ensures ok ==> nodes[temp] == File(f.bytes, f.mode, context.owner)
      ensures old(history) <= history
      ensures forall k :: |old(history)| <= k < |history| ==> OnlyTempDiffers(old(nodes), temp, history[k])
    {
      var done := 0;
      while done < |f.bytes|
        invariant 0 <= done <= |f.bytes|
        invariant OnlyTempDiffers(old(nodes), temp, nodes) && nodes[temp].bytes == f.bytes[..done]
        invariant old(history) <= history && faults == old(faults)
        invariant forall k :: |old(history)| <= k < |history| ==> OnlyTempDiffers(old(nodes), temp, history[k])
      {
        var fails := SystemFails();
        if fails { return false; }
        var more: nat :| done < more <= |f.bytes|;
        done := more;
        Become(nodes[temp := nodes[temp].(bytes := f.bytes[..done])]);
      }
      ok := SetMode(temp, f.mode);
      if ok {
        ok := ApplyOwner(temp);
      }
    }

    method SetMode(p: Path, mode: nat) returns (ok: bool)
      requires p in nodes && nodes[p].File?
      modifies `nodes, `history, `faults
      ensures faults == if ok then old(faults) else old(faults) + 1
      ensures nodes == if ok then old(nodes)[p := old(nodes)[p].(mode := mode)] else old(nodes)
      ensures history == if ok then old(history) + [nodes] else old(history)
    {
      var fails := SystemFails();
      if fails { return false; }
      Become(nodes[p := nodes[p].(mode := mode)]);
      return true;
    }

    /** Changes the owner only when it differs. */
    method ApplyOwner(p: Path) returns (ok: bool)
      requires p in nodes && nodes[p].File?
      modifies `nodes, `history, `faults
      ensures faults == if ok then old(faults) else old(faults) + 1
      ensures nodes == if ok then old(nodes)[p := old(nodes)[p].(owner := context.owner)] else old(nodes)
      ensures history == old(history) || history == old(history) + [nodes]
    {
      if nodes[p].owner == context.owner {
        assert nodes == nodes[p := nodes[p].(owner := context.owner)];
        return true;
      }
      var fails := SystemFails();
      if fails { return false; }
      Become(nodes[p := nodes[p].(owner := context.owner)]);
      return true;
    }

    /** Renames the temporary over the destination, which a directory there prevents. */
    method Place(temp: Path, p: Path) returns (outcome: Outcome)
      requires temp in nodes && nodes[temp].File?
      modifies `nodes, `history, `faults
      ensures faults == if outcome.Faulted? then old(faults) + 1 else old(faults)
      ensures outcome.Done? ==> nodes == (old(nodes) - {temp})[p := old(nodes)[temp]] && history == old(history) + [nodes]
      ensures !outcome.Done? ==> nodes == old(nodes) && history == old(history)
      ensures p in old(nodes) && old(nodes)[p].Dir? ==> !outcome.Done?
      ensures outcome.Refused? ==> p in nodes && nodes[p].Dir?
    {
      if p in nodes && nodes[p].Dir? { return Refused; }
      var fails := SystemFails();
      if fails { return Faulted; }
      Become((nodes - {temp})[p := nodes[temp]]);
      return Done;
    }

    method DiscardTemp(temp: Path)
      modifies `nodes, `history, `strays, `faults
      ensures old(faults) <= faults && (strays == old(strays) || faults > old(faults))
      ensures strays == old(strays) || strays == old(strays) + 1
      ensures nodes == if strays == old(strays) then old(nodes) - {temp} else old(nodes)
      ensures history == if strays == old(strays) then old(history) + [nodes] else old(history)
    {
      var fails := SystemFails();
      if fails {
        strays := strays + 1;
      } else {
        Become(nodes - {temp});
      }
    }
  }
}
