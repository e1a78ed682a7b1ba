// The worklist walk that hands every entry of a tree to one user.

module OwnershipWalk {
  import opened Paths

  type Uid = nat

  /** An entry of the file system. `dest` is the real path a link leads to, through
      any further links, or `Dangling`. */
  datatype Kind = Dir | File | Link(dest: Path) | Dangling

  type Files = map<Path, Kind>

  /** Every entry lies in a directory, and a resolved link leads to a real entry. */
  ghost predicate WellFormed(fs: Files) {
    && (forall q :: q in fs && q != [] ==> Parent(q) in fs && fs[Parent(q)].Dir?)
    && (forall q :: q in fs && fs[q].Link? ==> fs[q].dest in fs && !fs[fs[q].dest].Link? && !fs[fs[q].dest].Dangling?)
  }

  /** The entries strictly below `root`. */
  function Below(fs: Files, root: Path): set<Path> {
    set q | q in fs && root < q
  }

  /** The entries whose owner a `chown` of each of `calls` sets: `chown` follows links. */
  function Reached(fs: Files, calls: set<Path>): set<Path> {
    (set q | q in calls && q in fs && !fs[q].Link? && !fs[q].Dangling?) +
    (set q | q in calls && q in fs && fs[q].Link? :: fs[q].dest)
  }

  /** The owners after the entries of `calls` were handed to `user`. */
  function HandedOver(fs: Files, owner: map<Path, Uid>, calls: set<Path>, user: Uid): map<Path, Uid> {
    owner + map q | q in Reached(fs, calls) :: user
  }

  predicate Incomparable(p: Path, q: Path) {
    !(p <= q) && !(q <= p)
  }

  /** The entries still to be visited: those below a stacked directory. */
  ghost predicate IsPending(stack: seq<Path>, q: Path) {
    exists i :: 0 <= i < |stack| && stack[i] < q
  }

  function NamesIn(fs: Files, p: Path): set<string> {
    set q | q in fs && |q| == |p| + 1 && p < q :: q[|p|]
  }

  lemma {:induction false} NamedEntry(fs: Files, p: Path, n: string)
    requires n in NamesIn(fs, p)
    ensures p + [n] in fs
  {
    var q :| q in fs && |q| == |p| + 1 && p < q && q[|p|] == n;
    assert q == p + [n];
  }

  lemma {:induction false} AncestorExists(fs: Files, p: Path, q: Path)
    requires WellFormed(fs) && q in fs && p <= q
    ensures p in fs && (p != q ==> fs[p].Dir?)
    decreases |q|
  {
    if p != q {
      AncestorExists(fs, p, Parent(q));
    }
  }

  /** Everything below a directory lies under one of its names. */
  lemma {:induction false} UnderSomeName(fs: Files, p: Path, q: Path)
    requires WellFormed(fs) && q in fs && p < q
    ensures q[|p|] in NamesIn(fs, p)
  {
    AncestorExists(fs, q[..|p| + 1], q);
  }

  /** What the walk stacks: the root and directories. */
  predicate IsWalked(fs: Files, root: Path, p: Path) {
    p == root || (p in fs && fs[p].Dir?)
  }

  /** Between directories: the stacked directories are disjoint, and what is left to
      visit is exactly what lies below them. */
  ghost predicate StackInv(fs: Files, root: Path, stack: seq<Path>, pending: set<Path>) {
    && pending <= Below(fs, root)
    && (forall q :: q in Below(fs, root) ==> (q in pending <==> IsPending(stack, q)))
    && (forall i :: 0 <= i < |stack| ==> root <= stack[i] && IsWalked(fs, root, stack[i]))
    && (forall i, j :: 0 <= i < j < |stack| ==> Incomparable(stack[i], stack[j]))
  }

  /** Inside directory `path`, with the names of `todo` still to be visited. */
  ghost predicate EntriesInv(fs: Files, root: Path, stack: seq<Path>, pending: set<Path>, path: Path, todo: set<string>) {
    && pending <= Below(fs, root)
    && (forall q :: q in Below(fs, root) ==> (q in pending <==> IsPending(stack, q) || (path < q && q[|path|] in todo)))
    && IsApart(fs, root, stack, path, todo)
  }

  /** The stacked directories are disjoint from each other and from what is left of `path`. */
  ghost predicate IsApart(fs: Files, root: Path, stack: seq<Path>, path: Path, todo: set<string>) {
    && (forall i :: 0 <= i < |stack| ==> root <= stack[i] && !(stack[i] <= path) && IsWalked(fs, root, stack[i]))
    && (forall i :: 0 <= i < |stack| && path < stack[i] ==> stack[i][|path|] !in todo)
    && (forall i, j :: 0 <= i < j < |stack| ==> Incomparable(stack[i], stack[j]))
  }

  lemma {:induction false} EnterDirectory(fs: Files, root: Path, stack: seq<Path>, pending: set<Path>)
    requires WellFormed(fs) && stack != [] && StackInv(fs, root, stack, pending)
    ensures var path := stack[|stack| - 1];
      EntriesInv(fs, root, stack[..|stack| - 1], pending, path, NamesIn(fs, path))
  {
    var path, rest := stack[|stack| - 1], stack[..|stack| - 1];
    assert stack == rest + [path];
    forall q | q in Below(fs, root)
      ensures q in pending <==> IsPending(rest, q) || (path < q && q[|path|] in NamesIn(fs, path))
    {
      if path < q { UnderSomeName(fs, path, q); }
      PendingOnto(rest, path, q);
    }
    forall i | 0 <= i < |rest| ensures root <= rest[i] && Incomparable(rest[i], path) {
      assert rest[i] == stack[i];
    }
  }

  lemma {:induction false} StartAtRoot(fs: Files, root: Path)
    ensures StackInv(fs, root, [root], Below(fs, root))
  {
    forall q | q in Below(fs, root) ensures IsPending([root], q) {
      assert [root][0] < q;
    }
  }

  lemma {:induction false} LeaveDirectory(fs: Files, root: Path, stack: seq<Path>, pending: set<Path>, path: Path)
    requires EntriesInv(fs, root, stack, pending, path, {})
    ensures StackInv(fs, root, stack, pending)
  {}

  lemma {:induction false} NothingThere(fs: Files, path: Path)
    requires WellFormed(fs) && path !in fs
    ensures NamesIn(fs, path) == {}
  {
    forall q | q in fs ensures !(path < q) {
      if path < q { AncestorExists(fs, path, q); }
    }
  }

  /** How visiting `path + [n]` changes what is pending at `q`. */
  lemma {:induction false} VisitAt(fs: Files, root: Path, stack: seq<Path>, pending: set<Path>, path: Path, todo: set<string>,
                                   n: string, q: Path)
    requires WellFormed(fs) && n in todo && path + [n] in fs && q in Below(fs, root)
    requires EntriesInv(fs, root, stack, pending, path, todo)
    requires forall i :: 0 <= i < |stack| ==> Incomparable(stack[i], path + [n])
    ensures var c := path + [n];
      var stack' := if fs[c].Dir? then stack + [c] else stack;
      q in pending - {c} <==> IsPending(stack', q) || (path < q && q[|path|] in todo - {n})
  {
    var c := path + [n];
    OneLonger(path, n, q);
    if c < q { AncestorExists(fs, c, q); }
    PendingOnto(stack, c, q);
    assert !IsPending(stack, c);
  }

  lemma {:induction false} StackStaysApart(fs: Files, root: Path, stack: seq<Path>, path: Path, todo: set<string>, n: string)
    requires root <= path && n in todo && path + [n] in fs && IsApart(fs, root, stack, path, todo)
    ensures forall i :: 0 <= i < |stack| ==> Incomparable(stack[i], path + [n])
    ensures IsApart(fs, root, if fs[path + [n]].Dir? then stack + [path + [n]] else stack, path, todo - {n})
  {
    forall i | 0 <= i < |stack| ensures Incomparable(stack[i], path + [n]) {
      OneLonger(path, n, stack[i]);
    }
  }

  lemma {:induction false} VisitEntry(fs: Files, root: Path, stack: seq<Path>, pending: set<Path>, path: Path,
                                      todo: set<string>, n: string)
    requires WellFormed(fs) && root <= path && n in todo && todo <= NamesIn(fs, path)
    requires EntriesInv(fs, root, stack, pending, path, todo)
    ensures var c := path + [n];
      && c in pending
      && EntriesInv(fs, root, if fs[c].Dir? then stack + [c] else stack, pending - {c}, path, todo - {n})
  {
    NamedEntry(fs, path, n);
    var c := path + [n];
    StackStaysApart(fs, root, stack, path, todo, n);
    var stack' := if fs[c].Dir? then stack + [c] else stack;
    forall q | q in Below(fs, root)
      ensures q in pending - {c} <==> IsPending(stack', q) || (path < q && q[|path|] in todo - {n})
    {
      VisitAt(fs, root, stack, pending, path, todo, n, q);
    }
  }

  /** What it means to lie at or below `path + [n]`, or above it. */
  lemma {:induction false} OneLonger(path: Path, n: string, q: Path)
    ensures path + [n] <= q <==> path < q && q[|path|] == n
    ensures q <= path + [n] <==> q <= path || q == path + [n]
  {
    if path < q && q[|path|] == n {
      assert q[..|path| + 1] == path + [n];
    }
    if q <= path + [n] && q != path + [n] {
      assert (path + [n])[..|q|] == path[..|q|];
    }
  }

  lemma {:induction false} PendingOnto(stack: seq<Path>, c: Path, q: Path)
    ensures IsPending(stack + [c], q) <==> IsPending(stack, q) || c < q
  {
    if IsPending(stack, q) {
      var i :| 0 <= i < |stack| && stack[i] < q;
      assert (stack + [c])[i] < q;
    }
    if c < q {
      assert (stack + [c])[|stack|] < q;
    }
  }

  /** What has been handed over and counted when `pending` is left. */
  ghost predicate Accounted(fs: Files, root: Path, pending: set<Path>, user: Uid, updated: nat,
                            owner0: map<Path, Uid>, calls0: multiset<Path>,
                            owner: map<Path, Uid>, calls: multiset<Path>) {
    var done := Below(fs, root) - pending;
    && pending <= Below(fs, root) && updated == |done|
    && calls == calls0 + multiset(done)
    && owner == HandedOver(fs, owner0, done, user)
    && (forall q :: q in done ==> !fs[q].Dangling?)
  }

  lemma {:induction false} OneMore(fs: Files, owner: map<Path, Uid>, done: set<Path>, q: Path, user: Uid)
    ensures HandedOver(fs, HandedOver(fs, owner, done, user), {q}, user) == HandedOver(fs, owner, done + {q}, user)
  {
    assert Reached(fs, done + {q}) == Reached(fs, done) + Reached(fs, {q});
  }

  lemma {:induction false} AccountOne(fs: Files, root: Path, pending: set<Path>, user: Uid, updated: nat,
                   owner0: map<Path, Uid>, calls0: multiset<Path>,
                   owner: map<Path, Uid>, calls: multiset<Path>, q: Path)
    requires Accounted(fs, root, pending, user, updated, owner0, calls0, owner, calls)
    requires q in pending && !fs[q].Dangling?
    ensures Accounted(fs, root, pending - {q}, user, updated + 1, owner0, calls0,
                      HandedOver(fs, owner, {q}, user), calls + multiset{q})
  {
    var done := Below(fs, root) - pending;
    OneMore(fs, owner0, done, q, user);
    assert Below(fs, root) - (pending - {q}) == done + {q};
  }

  /** Some entries below `root`, and nothing else, were handed to `user`. */
  ghost predicate HasHandedOverSome(fs: Files, root: Path, owner0: map<Path, Uid>, owner: map<Path, Uid>, user: Uid) {
    exists done :: done <= Below(fs, root) && owner == HandedOver(fs, owner0, done, user)
  }

  /** The walk can finish: there is no root or it is a directory, and no link dangles. */
  ghost predicate IsWalkable(fs: Files, root: Path) {
    (root in fs ==> fs[root].Dir?) && forall q :: q in Below(fs, root) ==> !fs[q].Dangling?
  }

  lemma {:induction false} AccountedIsSome(fs: Files, root: Path, pending: set<Path>, user: Uid, updated: nat,
                   owner0: map<Path, Uid>, calls0: multiset<Path>,
                   owner: map<Path, Uid>, calls: multiset<Path>)
    requires Accounted(fs, root, pending, user, updated, owner0, calls0, owner, calls)
    ensures HasHandedOverSome(fs, root, owner0, owner, user)
  {
    assert Below(fs, root) - pending <= Below(fs, root);
  }

  lemma {:induction false} AllAccounted(fs: Files, root: Path, user: Uid, updated: nat,
                   owner0: map<Path, Uid>, calls0: multiset<Path>,
                   owner: map<Path, Uid>, calls: multiset<Path>)
    requires Accounted(fs, root, {}, user, updated, owner0, calls0, owner, calls)
    ensures updated == |Below(fs, root)| && calls == calls0 + multiset(Below(fs, root))
    ensures owner == HandedOver(fs, owner0, Below(fs, root), user)
    ensures forall q :: q in Below(fs, root) ==> !fs[q].Dangling?
  {
    assert Below(fs, root) - {} == Below(fs, root);
  }

  /** Handing over one entry sets the owner of the entry or of what it leads to. */
  lemma {:induction false} HandedOverOne(fs: Files, owner: map<Path, Uid>, path: Path, user: Uid)
    requires path in fs && !fs[path].Dangling?
    ensures HandedOver(fs, owner, {path}, user) == owner[(if fs[path].Link? then fs[path].dest else path) := user]
  {
    assert Reached(fs, {path}) == {if fs[path].Link? then fs[path].dest else path};
  }

  class Owners {
    const fs: Files
    var owner: map<Path, Uid>
    // Every path `chown` succeeded on, once per call.
    ghost var calls: multiset<Path>
    // The calls that failed for reasons other than the entry itself.
    ghost var faults: nat

    constructor (fs: Files, owner: map<Path, Uid>)
      ensures this.fs == fs && this.owner == owner && calls == multiset{} && faults == 0
    {
      this.fs, this.owner, calls, faults := fs, owner, multiset{}, 0;
    }

    /** `chown(2)` on one entry: it follows a link and fails on a dangling one. */
    method ChownEntry(path: Path, user: Uid) returns (ok: bool)
      requires path in fs
      modifies this
      ensures ok ==> !fs[path].Dangling? && owner == HandedOver(fs, old(owner), {path}, user)
      ensures ok ==> calls == old(calls) + multiset{path} && faults == old(faults)
      ensures !ok ==> owner == old(owner) && calls == old(calls) && (fs[path].Dangling? || faults > old(faults))
    {
      if * {
        faults := faults + 1;
        return false;
      }
      if !fs[path].Dangling? { HandedOverOne(fs, owner, path, user); }
      match fs[path] {
        case Dangling => return false;
        case Link(dest) => owner := owner[dest := user];
        case _ => owner := owner[path := user];
      }
      calls := calls + multiset{path};
      return true;
    }

    /** The walk's inner loop: hands over the entries of one directory and stacks its
        subdirectories. */
    method HandOverEntries(root: Path, path: Path, rest: seq<Path>, user: Uid, count: nat,
                           ghost left: set<Path>, ghost owner0: map<Path, Uid>, ghost calls0: multiset<Path>)
      returns (ok: bool, stack: seq<Path>, updated: nat, ghost pending: set<Path>)
      requires WellFormed(fs) && root <= path
      requires EntriesInv(fs, root, rest, left, path, NamesIn(fs, path))
      requires Accounted(fs, root, left, user, count, owner0, calls0, owner, calls)
      modifies this
      ensures ok ==> StackInv(fs, root, stack, pending) && |pending| + |stack| <= |left| + |rest|
      ensures ok ==> Accounted(fs, root, pending, user, updated, owner0, calls0, owner, calls) && faults == old(faults)
      ensures !ok ==> HasHandedOverSome(fs, root, owner0, owner, user)
      ensures !ok ==> faults > old(faults) || !IsWalkable(fs, root)
    {
      stack, updated, pending := rest, count, left;
      var todo := NamesIn(fs, path);
      while todo != {}
        invariant todo <= NamesIn(fs, path)
        invariant EntriesInv(fs, root, stack, pending, path, todo)
        invariant Accounted(fs, root, pending, user, updated, owner0, calls0, owner, calls)
        invariant |pending| + |stack| <= |left| + |rest| && faults == old(faults)
        decreases todo
      {
        var n :| n in todo;
        var entry := path + [n];
        NamedEntry(fs, path, n);
        VisitEntry(fs, root, stack, pending, path, todo, n);
        ghost var owner1, calls1 := owner, calls;
        ok := ChownEntry(entry, user);
        if !ok {
          AccountedIsSome(fs, root, pending, user, updated, owner0, calls0, owner, calls);
          assert entry in Below(fs, root);
          return;
        }
        AccountOne(fs, root, pending, user, updated, owner0, calls0, owner1, calls1, entry);
        updated, pending, todo := updated + 1, pending - {entry}, todo - {n};
        if fs[entry].Dir? { stack := stack + [entry]; }
      }
      LeaveDirectory(fs, root, stack, pending, path);
      ok := true;
    }

    /** Hands every entry below `root` to `user` and counts them. */
    method EnsureTreeOwnedByUser(root: Path, user: Uid) returns (ok: bool, updated: nat)
      requires WellFormed(fs)
      modifies this
      ensures ok ==> updated == |Below(fs, root)| && calls == old(calls) + multiset(Below(fs, root))
      ensures ok ==> owner == HandedOver(fs, old(owner), Below(fs, root), user)
      ensures HasHandedOverSome(fs, root, old(owner), owner, user)
      ensures ok ==> IsWalkable(fs, root)
      ensures !ok ==> faults > old(faults) || !IsWalkable(fs, root)
    {
      var stack := [root];
      updated := 0;
      ghost var pending := Below(fs, root);
      StartAtRoot(fs, root);
      while stack != []
        invariant StackInv(fs, root, stack, pending)
        invariant Accounted(fs, root, pending, user, updated, old(owner), old(calls), owner, calls)
        invariant faults == old(faults) && (stack != [root] ==> root in fs ==> fs[root].Dir?)
        decreases |pending| + |stack|
      {
        EnterDirectory(fs, root, stack, pending);
        AccountedIsSome(fs, root, pending, user, updated, old(owner), old(calls), owner, calls);
        var path := stack[|stack| - 1];
        stack := stack[..|stack| - 1];
        if path !in fs {
          NothingThere(fs, path);
          LeaveDirectory(fs, root, stack, pending, path);
          continue;
        }
        if !fs[path].Dir? { return false, updated; }
        ok, stack, updated, pending := HandOverEntries(root, path, stack, user, updated, pending, old(owner), old(calls));
        if !ok { return; }
      }
      assert pending == {};
      AllAccounted(fs, root, user, updated, old(owner), old(calls), owner, calls);
      AccountedIsSome(fs, root, pending, user, updated, old(owner), old(calls), owner, calls);
      ok := true;
    }
  }

  // ----- Where the walk hands over what it is asked to -----

  /** The walk sets the owner of exactly the entries below `root`. */
  ghost predicate HandsOverExactly(fs: Files, root: Path) {
    forall owner: map<Path, Uid>, user: Uid {:trigger HandedOver(fs, owner, Below(fs, root), user)} ::
      HandedOver(fs, owner, Below(fs, root), user) == owner + map q | q in Below(fs, root) :: user
  }

  /** It does so exactly when no entry below is a link: a link keeps its own owner and
      passes the new one on to whatever it leads to. */
  lemma {:induction false} ExactIffNoLinks(fs: Files, root: Path)
    requires WellFormed(fs) && forall q :: q in Below(fs, root) ==> !fs[q].Dangling?
    ensures HandsOverExactly(fs, root) <==> forall q :: q in Below(fs, root) ==> !fs[q].Link?
  {
    var calls := Below(fs, root);
    if q :| q in calls && fs[q].Link? {
      var owner: map<Path, Uid> := map[q := 0];
      assert q !in Reached(fs, calls);
      assert HandedOver(fs, owner, calls, 1)[q] == 0;
    } else {
      assert Reached(fs, calls) == calls;
    }
  }

  /** Nothing but entries below `root` changes owner. */
  ghost predicate StaysBelow(fs: Files, root: Path) {
    forall owner: map<Path, Uid>, user: Uid, q {:trigger q in HandedOver(fs, owner, Below(fs, root), user)} ::
      q !in Below(fs, root) && q in owner ==>
        q in HandedOver(fs, owner, Below(fs, root), user) && HandedOver(fs, owner, Below(fs, root), user)[q] == owner[q]
  }

  lemma {:induction false} LinkLeadsOut(fs: Files, root: Path, q: Path)
    requires q in Below(fs, root) && fs[q].Link? && fs[q].dest !in Below(fs, root)
    ensures !StaysBelow(fs, root)
  {
    var calls, owner: map<Path, Uid> := Below(fs, root), map[fs[q].dest := 0];
    assert fs[q].dest in Reached(fs, calls);
    assert fs[q].dest in HandedOver(fs, owner, calls, 1) && HandedOver(fs, owner, calls, 1)[fs[q].dest] == 1;
  }

  lemma {:induction false} LinksLeadBelow(fs: Files, root: Path)
    requires forall q :: q in Below(fs, root) && fs[q].Link? ==> fs[q].dest in Below(fs, root)
    ensures StaysBelow(fs, root)
  {
    var calls := Below(fs, root);
    assert Reached(fs, calls) <= calls;
    forall owner: map<Path, Uid>, user: Uid, q | q !in calls && q in owner
      ensures q in HandedOver(fs, owner, calls, user) && HandedOver(fs, owner, calls, user)[q] == owner[q]
    {
      assert q !in Reached(fs, calls);
    }
  }

  /** The root and everything outside keep their owners exactly when every link below
      leads to an entry below. */
  lemma {:induction false} StaysBelowIff(fs: Files, root: Path)
    ensures StaysBelow(fs, root) <==>
      forall q :: q in Below(fs, root) && fs[q].Link? ==> fs[q].dest in Below(fs, root)
  {
    if q :| q in Below(fs, root) && fs[q].Link? && fs[q].dest !in Below(fs, root) {
      LinkLeadsOut(fs, root, q);
    } else {
      LinksLeadBelow(fs, root);
    }
  }
}
