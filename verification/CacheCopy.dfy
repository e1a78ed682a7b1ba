// The recursive cache copy: interrupted copies, recovery, and the completion
// marker of a cache entry.

module CacheCopy {
  import opened Paths

  datatype Node = Dir | File(bytes: Bytes) | Link(target: string)

  type Tree = map<Path, Node>

  /** Every entry but the root lies in a directory of the tree. */
  ghost predicate Closed(t: Tree) {
    && [] in t && t[[]].Dir?
    && forall q :: q in t && q != [] ==> Parent(q) in t && t[Parent(q)].Dir?
  }

  /** Where both trees have an entry, the copy can replace the target's by the
      source's: directories match, files match, and a link replaces no directory. */
  ghost predicate KindsAgree(src: Tree, d: Tree) {
    forall q :: q in src && q in d ==> EntryAgrees(src[q], d[q])
  }

  predicate EntryAgrees(s: Node, d: Node) {
    match s
    case Dir => d.Dir?
    case File(_) => d.File?
    case Link(_) => !d.Dir?
  }

  /** A file of the source's size counts as installed, whatever its bytes. */
  predicate IsInstalled(s: Node, d: Node) {
    s.File? && d.File? && |s.bytes| == |d.bytes|
  }

  /** What one source entry becomes in the target. */
  function SettledEntry(src: Tree, d: Tree, q: Path): Node
    requires q in src
  {
    if q in d && IsInstalled(src[q], d[q]) then d[q] else src[q]
  }

  /** The part of the source at and below `p`, as a completed copy leaves it. */
  function SettledBelow(src: Tree, d: Tree, p: Path): Tree {
    map q | q in src && p <= q :: SettledEntry(src, d, q)
  }

  /** The target after a completed copy of `src` over `d`. */
  function Settled(src: Tree, d: Tree): Tree {
    d + SettledBelow(src, d, [])
  }

  /** What an interrupted copy may leave of one entry: the target's own, the
      settled one, a prefix of the source's bytes, or nothing where a link was
      to be replaced. Installed entries are never touched. */
  predicate EntryProgressed(s: Node, before: Tree, after: Tree, q: Path) {
    if q in before && (before[q] == s || IsInstalled(s, before[q])) then
      q in after && after[q] == before[q]
    else
      || (q in before && q in after && after[q] == before[q])
      || (q !in before && q !in after)
      || (q in after && after[q] == s)
      || (s.File? && q in after && after[q].File? && after[q].bytes <= s.bytes)
      || (s.Link? && q !in after)
  }

  /** `after` is what a copy of `src`, interrupted anywhere, may leave of `before`. */
  ghost predicate Progressed(src: Tree, before: Tree, after: Tree) {
    && (forall q :: q in src ==> EntryProgressed(src[q], before, after, q))
    && (forall q :: q !in src ==> (q in before <==> q in after))
    && (forall q :: q !in src && q in before ==> after[q] == before[q])
  }

  /** A completed copy leaves a file of the source's size as it was, replaces any other by
      the source's, creates what was missing, and keeps what the source does not have. */
  lemma {:induction false} SizesDecide(src: Tree, d: Tree, q: Path)
    ensures q in Settled(src, d) <==> q in src || q in d
    ensures q in src && q in d && src[q].File? && d[q].File? ==>
      Settled(src, d)[q] == if |src[q].bytes| == |d[q].bytes| then d[q] else src[q]
    ensures q in src && !(q in d && src[q].File? && d[q].File?) ==> Settled(src, d)[q] == src[q]
    ensures q !in src && q in d ==> Settled(src, d)[q] == d[q]
  {
    if q in src { assert SettledEntry(src, d, q) == SettledBelow(src, d, [])[q]; }
  }

  // ----- Recovery -----

  lemma {:induction false} ProgressKeepsAgreement(src: Tree, before: Tree, after: Tree)
    requires KindsAgree(src, before) && Progressed(src, before, after)
    ensures KindsAgree(src, after)
  {
    forall q | q in src && q in after ensures EntryAgrees(src[q], after[q]) {
      assert EntryProgressed(src[q], before, after, q);
    }
  }

  /** A completed copy gives the same result after an interrupted one as before it. */
  lemma {:induction false} ProgressKeepsOutcome(src: Tree, before: Tree, after: Tree)
    requires KindsAgree(src, before) && Progressed(src, before, after)
    ensures Settled(src, after) == Settled(src, before)
  {
    forall q | q in src ensures SettledEntry(src, after, q) == SettledEntry(src, before, q) {
      assert EntryProgressed(src[q], before, after, q);
    }
  }

  /** After any number of interrupted copies, one completed copy yields what an
      uninterrupted copy into the first target would have. */
  lemma {:induction false} RecoveryAfterInterruptions(src: Tree, ds: seq<Tree>)
    requires |ds| > 0 && KindsAgree(src, ds[0])
    requires forall i :: 0 <= i < |ds| - 1 ==> Progressed(src, ds[i], ds[i + 1])
    ensures KindsAgree(src, ds[|ds| - 1])
    ensures Settled(src, ds[|ds| - 1]) == Settled(src, ds[0])
  {
    if |ds| > 1 {
      ProgressKeepsAgreement(src, ds[0], ds[1]);
      ProgressKeepsOutcome(src, ds[0], ds[1]);
      forall i | 0 <= i < |ds[1..]| - 1 ensures Progressed(src, ds[1..][i], ds[1..][i + 1]) {
        assert Progressed(src, ds[i + 1], ds[i + 2]);
      }
      RecoveryAfterInterruptions(src, ds[1..]);
    }
  }

  /** Part of a copy: directories and links as in the source, files a prefix of it. */
  ghost predicate PartialCopy(src: Tree, d: Tree) {
    forall q :: q in src && q in d ==>
      d[q] == src[q] || (src[q].File? && d[q].File? && d[q].bytes <= src[q].bytes)
  }

  lemma {:induction false} PartialCopyStays(src: Tree, before: Tree, after: Tree)
    requires PartialCopy(src, before) && Progressed(src, before, after)
    ensures PartialCopy(src, after)
  {
    forall q | q in src && q in after
      ensures after[q] == src[q] || (src[q].File? && after[q].File? && after[q].bytes <= src[q].bytes)
    {
      assert EntryProgressed(src[q], before, after, q);
    }
  }

  /** From a partial copy (an empty target is one) a completed copy reproduces the
      source's names, bytes and link targets, and keeps every other entry. */
  lemma {:induction false} PartialCopyCompletes(src: Tree, d: Tree)
    requires PartialCopy(src, d)
    ensures KindsAgree(src, d) && Settled(src, d) == d + src
  {
    forall q | q in src ensures SettledEntry(src, d, q) == src[q] {
      assert q in d && IsInstalled(src[q], d[q]) && d[q].bytes <= src[q].bytes ==> d[q].bytes == src[q].bytes;
    }
  }

  /** Judging a file by its size is sound exactly for targets that hold no other file
      of the same size: then, and only then, a completed copy reproduces the source. */
  lemma {:induction false} CopyIsExactIff(src: Tree, d: Tree)
    ensures Settled(src, d) == d + src <==>
      forall q :: q in src && q in d && src[q].File? && d[q].File? && |src[q].bytes| == |d[q].bytes| ==>
        d[q].bytes == src[q].bytes
  {
    assert forall q :: q in src && q in d ==>
      (IsInstalled(src[q], d[q]) <==> src[q].File? && d[q].File? && |src[q].bytes| == |d[q].bytes|);
    if forall q :: q in src && q in d && IsInstalled(src[q], d[q]) ==> d[q] == src[q] {
      forall q | q in src ensures SettledEntry(src, d, q) == src[q] {}
    } else {
      var q :| q in src && q in d && IsInstalled(src[q], d[q]) && d[q] != src[q];
      assert Settled(src, d)[q] == d[q] && (d + src)[q] == src[q];
    }
  }

  /** The source entries the target does not hold yet: the only ones a copy touches, so
      a server running from a finished copy never sees its files rewritten. */
  function Unfinished(src: Tree, d: Tree): set<Path> {
    set q | q in src && !(q in d && (d[q] == src[q] || IsInstalled(src[q], d[q])))
  }

  /** Of two files only one of another size is to be touched. */
  lemma {:induction false} UnfinishedBySize(src: Tree, d: Tree, q: Path)
    requires q in src && src[q].File?
    ensures q in Unfinished(src, d) <==> !(q in d && d[q].File? && |d[q].bytes| == |src[q].bytes|)
  {
    assert q in d && d[q] == src[q] ==> |d[q].bytes| == |src[q].bytes|;
  }

  lemma {:induction false} UnfinishedShrinks(src: Tree, before: Tree, after: Tree)
    requires Progressed(src, before, after)
    ensures Unfinished(src, after) <= Unfinished(src, before)
  {
    forall q | q in src && q !in Unfinished(src, before) ensures q !in Unfinished(src, after) {
      assert EntryProgressed(src[q], before, after, q);
    }
  }

  /** Copying over a completed copy finds nothing to do and changes nothing. */
  lemma {:induction false} CopyIsIdempotent(src: Tree, d: Tree)
    ensures Settled(src, Settled(src, d)) == Settled(src, d)
    ensures Unfinished(src, Settled(src, d)) == {}
  {
    var t := Settled(src, d);
    forall q | q in src ensures SettledEntry(src, t, q) == t[q] {}
  }

  /** An interrupted copy loses nothing but a link that it was about to replace. */
  lemma {:induction false} OnlyLinksGo(src: Tree, before: Tree, after: Tree, q: Path)
    requires Progressed(src, before, after) && q in before && q !in after
    ensures q in src && src[q].Link? && before[q] != src[q]
  {
    if q in src { assert EntryProgressed(src[q], before, after, q); }
  }

  // ----- Lemmas about one directory's loop -----

  lemma {:induction false} ProgressChains(src: Tree, a: Tree, b: Tree, c: Tree)
    requires Progressed(src, a, b) && Progressed(src, b, c)
    ensures Progressed(src, a, c)
  {
    forall q | q in src ensures EntryProgressed(src[q], a, c, q) {
      assert EntryProgressed(src[q], a, b, q) && EntryProgressed(src[q], b, c, q);
    }
  }

  /** The entries of directory `p` that are finished when the names of `todo` are left. */
  function DoneBelow(src: Tree, d: Tree, p: Path, todo: set<string>): Tree {
    map q | q in src && p <= q && (q == p || q[|p|] !in todo) :: SettledEntry(src, d, q)
  }

  lemma {:induction false} DoneIsProgress(src: Tree, d: Tree, p: Path, todo: set<string>)
    ensures Progressed(src, d, d + DoneBelow(src, d, p, todo))
  {}

  function NamesIn(src: Tree, p: Path): (names: set<string>) {
    set q | q in src && |q| == |p| + 1 && p <= q :: q[|p|]
  }

  function Below(src: Tree, p: Path): set<Path> {
    set q | q in src && p <= q
  }

  lemma {:induction false} NamedEntry(src: Tree, p: Path, n: string)
    requires p in src && n in NamesIn(src, p)
    ensures p + [n] in src && Below(src, p + [n]) < Below(src, p)
  {
    var q :| q in src && |q| == |p| + 1 && p <= q && q[|p|] == n;
    assert q == p + [n];
    assert p in Below(src, p) && p !in Below(src, p + [n]);
  }

  /** Every entry below `p` lies under one of the names in `p`. */
  lemma {:induction false} AncestorsInTree(src: Tree, p: Path, q: Path)
    requires Closed(src) && q in src && p <= q
    ensures p in src && (p != q ==> src[p].Dir?)
    decreases |q|
  {
    if p != q {
      assert p <= Parent(q);
      AncestorsInTree(src, p, Parent(q));
    }
  }

  lemma {:induction false} AllNamesAreBelow(src: Tree, d: Tree, p: Path)
    requires Closed(src)
    ensures DoneBelow(src, d, p, NamesIn(src, p)).Keys <= {p}
    ensures DoneBelow(src, d, p, {}) == SettledBelow(src, d, p)
  {
    forall q | q in src && p <= q && q != p ensures q[|p|] in NamesIn(src, p) {
      assert p <= q[..|p| + 1] <= q;
      AncestorsInTree(src, q[..|p| + 1], q);
    }
  }

  lemma {:induction false} UnderName(p: Path, n: string, q: Path)
    ensures p + [n] <= q <==> p <= q && q != p && q[|p|] == n
  {
    if p <= q && q != p && q[|p|] == n {
      assert q[..|p| + 1] == p + [n];
    }
  }

  lemma {:induction false} OneNameDone(src: Tree, d: Tree, p: Path, todo: set<string>, n: string, t: Tree)
    requires n in todo && t == d + DoneBelow(src, d, p, todo)
    ensures t + SettledBelow(src, t, p + [n]) == d + DoneBelow(src, d, p, todo - {n})
  {
    forall q | q in src
      ensures p + [n] <= q <==> p <= q && q != p && q[|p|] == n
      ensures p + [n] <= q ==> SettledEntry(src, t, q) == SettledEntry(src, d, q)
    {
      UnderName(p, n, q);
    }
  }

  /** Once the directory itself is there, every name in it is what is left. */
  lemma {:induction false} EnteringIsDone(src: Tree, d: Tree, p: Path)
    requires Closed(src) && KindsAgree(src, d) && p in src && src[p].Dir?
    ensures d + DoneBelow(src, d, p, NamesIn(src, p)) == d[p := Dir]
    ensures Progressed(src, d, d[p := Dir])
  {
    assert DoneBelow(src, d, p, NamesIn(src, p)) == map[p := Dir] by {
      AllNamesAreBelow(src, d, p);
      assert SettledEntry(src, d, p) == Dir;
    }
    DoneIsProgress(src, d, p, NamesIn(src, p));
    assert d + map[p := Dir] == d[p := Dir];
  }

  lemma {:induction false} LeafIsAllBelow(src: Tree, d: Tree, q: Path)
    requires Closed(src) && q in src && !src[q].Dir?
    ensures SettledBelow(src, d, q) == map[q := SettledEntry(src, d, q)]
  {
    forall r | r in src && q <= r ensures r == q {
      AncestorsInTree(src, q, r);
    }
  }

  lemma {:induction false} BeforeEntry(src: Tree, before: Tree, here: Tree, p: Path, todo: set<string>)
    requires KindsAgree(src, before) && here == before + DoneBelow(src, before, p, todo)
    ensures KindsAgree(src, here) && Unfinished(src, here) <= Unfinished(src, before)
  {
    DoneIsProgress(src, before, p, todo);
    ProgressKeepsAgreement(src, before, here);
    UnfinishedShrinks(src, before, here);
  }

  lemma {:induction false} AfterEntry(src: Tree, before: Tree, here: Tree, now: Tree, p: Path, todo: set<string>,
                                      n: string, ok: bool)
    requires n in todo && here == before + DoneBelow(src, before, p, todo)
    requires Progressed(src, here, now) && (ok ==> now == here + SettledBelow(src, here, p + [n]))
    ensures Progressed(src, before, now) && (ok ==> now == before + DoneBelow(src, before, p, todo - {n}))
  {
    DoneIsProgress(src, before, p, todo);
    ProgressChains(src, before, here, now);
    OneNameDone(src, before, p, todo, n, here);
  }

  // ----- The completion marker -----

  const MARKER: Path := [".complete"]
  const BIN: Path := ["bin"]

  /** What the cache lookup takes for a complete entry. */
  predicate PassesForComplete(d: Tree) {
    MARKER in d && BIN in d && d[BIN].Dir?
  }

  lemma {:induction false} PassesIff(d: Tree)
    ensures PassesForComplete(d) <==> [".complete"] in d && ["bin"] in d && d[["bin"]] == Dir
  {}

  const EMPTY: Tree := map[[] := Dir]

  ghost predicate ComesAfterParent(src: Tree, qs: seq<Path>, i: nat)
    requires i < |qs|
  {
    && qs[i] in src && qs[i] != []
    && (Parent(qs[i]) == [] || exists j :: 0 <= j < i && qs[j] == Parent(qs[i]))
  }

  /** An order in which a copy into an empty entry may reach source entries: each after
      its directory. The order of a directory's entries is the file system's choice,
      and entries come again when a later copy goes over them. */
  ghost predicate IsVisitOrder(src: Tree, qs: seq<Path>) {
    forall i :: 0 <= i < |qs| ==> ComesAfterParent(src, qs, i)
  }

  /** The entry after the copy has visited `qs` and stopped. */
  function Visited(src: Tree, qs: seq<Path>): Tree {
    EMPTY + map q | q in qs && q in src :: src[q]
  }

  /** The entry after the copy has stopped with `n` bytes of its last file written. */
  function StoppedIn(src: Tree, qs: seq<Path>, n: nat): Tree {
    var d := Visited(src, qs);
    if qs == [] then d
    else
      var last := qs[|qs| - 1];
      if last in src && src[last].File? && n < |src[last].bytes| then d[last := File(src[last].bytes[..n])] else d
  }

  lemma {:induction false} VisitsAreProgress(src: Tree, qs: seq<Path>, n: nat)
    requires Closed(src) && IsVisitOrder(src, qs)
    ensures Progressed(src, EMPTY, StoppedIn(src, qs, n))
  {
    if qs != [] { assert ComesAfterParent(src, qs, |qs| - 1); }
  }

  lemma {:induction false} ShiftedVisit(src: Tree, qs: seq<Path>, ps: seq<Path>, i: nat)
    requires i < |qs + ps|
    requires if i < |qs| then ComesAfterParent(src, qs, i) else ComesAfterParent(src, ps, i - |qs|)
    ensures ComesAfterParent(src, qs + ps, i)
  {
    var all, p := qs + ps, Parent((qs + ps)[i]);
    if p != [] {
      if i < |qs| {
        var j :| 0 <= j < i && qs[j] == p;
        assert all[j] == p;
      } else {
        var j :| 0 <= j < i - |qs| && ps[j] == p;
        assert all[|qs| + j] == p;
      }
    }
  }

  /** What a later copy, stopped in its turn, makes of an entry that an earlier one left. */
  lemma {:induction false} StopsAddUp(src: Tree, qs: seq<Path>, ps: seq<Path>)
    requires IsVisitOrder(src, qs) && IsVisitOrder(src, ps)
    ensures IsVisitOrder(src, qs + ps)
    ensures Visited(src, qs + ps) == Visited(src, qs) + (map q | q in ps && q in src :: src[q])
  {
    forall i | 0 <= i < |qs + ps|
      ensures ComesAfterParent(src, qs + ps, i)
    {
      ShiftedVisit(src, qs, ps, i);
    }
    assert forall q :: q in qs + ps <==> q in qs || q in ps;
  }

  /** No copy stopped part way through `src` passes for a complete entry. */
  ghost predicate StoppedCopiesNeverPass(src: Tree) {
    forall qs, n: nat :: IsVisitOrder(src, qs) && PassesForComplete(StoppedIn(src, qs, n)) ==> StoppedIn(src, qs, n) == src
  }

  /** A tree with nothing but an empty marker and a `bin` directory without entries. */
  predicate IsBareEntry(src: Tree) {
    src.Keys == {[], BIN, MARKER} && (src[MARKER].File? ==> src[MARKER].bytes == [])
  }

  lemma {:induction false} EarlyPass(src: Tree)
    requires Closed(src) && BIN in src && src[BIN].Dir? && MARKER in src && !IsBareEntry(src)
    ensures !StoppedCopiesNeverPass(src)
  {
    var qs := [BIN, MARKER];
    assert Parent(MARKER) == [] && Parent(BIN) == [] && qs[1] == MARKER;
    assert ComesAfterParent(src, qs, 0) && ComesAfterParent(src, qs, 1);
    assert BIN in qs && MARKER in qs;
    assert PassesForComplete(StoppedIn(src, qs, 0));
    assert StoppedIn(src, qs, 0).Keys == {[], BIN, MARKER};
    if src.Keys == {[], BIN, MARKER} {
      assert StoppedIn(src, qs, 0)[MARKER] == File([]) != src[MARKER];
    }
  }

  lemma {:induction false} BareEntryIsWhole(src: Tree, qs: seq<Path>, n: nat)
    requires Closed(src) && BIN in src && src[BIN].Dir? && IsBareEntry(src)
    requires IsVisitOrder(src, qs) && PassesForComplete(StoppedIn(src, qs, n))
    ensures StoppedIn(src, qs, n) == src
  {
    assert Parent(BIN) == [] && src[[]].Dir?;
    assert src[MARKER].File? || !src[MARKER].File?;
    if qs != [] { assert ComesAfterParent(src, qs, |qs| - 1); }
    assert StoppedIn(src, qs, n) == Visited(src, qs);
    assert MARKER in qs && BIN in qs;
  }

  /** A tree copied from a cache entry carries the entry's marker with it. Populating a
      cache from such a tree, stopped early, can leave an entry that passes for complete
      and is not; a tree without the marker never does. */
  lemma {:induction false} MarkerIsSoundIff(src: Tree)
    requires Closed(src) && BIN in src && src[BIN].Dir?
    ensures StoppedCopiesNeverPass(src) <==> MARKER !in src || IsBareEntry(src)
  {
    if MARKER in src {
      if IsBareEntry(src) {
        forall qs, n: nat | IsVisitOrder(src, qs) && PassesForComplete(StoppedIn(src, qs, n))
          ensures StoppedIn(src, qs, n) == src
        {
          BareEntryIsWhole(src, qs, n);
        }
      } else {
        EarlyPass(src);
      }
    } else {
      forall qs, n: nat | IsVisitOrder(src, qs)
        ensures !PassesForComplete(StoppedIn(src, qs, n))
      {
        if qs != [] { assert ComesAfterParent(src, qs, |qs| - 1); }
      }
    }
  }

  // ----- The copy itself -----

  /** The target tree, changed one file operation at a time. `touched` records the
      paths an operation created, wrote or removed, `stops` the errors and deaths. */
  class Target {
    var nodes: Tree
    ghost var touched: set<Path>
    ghost var stops: nat

    constructor (nodes: Tree)
      ensures this.nodes == nodes && touched == {} && stops == 0
    {
      this.nodes := nodes;
      touched, stops := {}, 0;
    }

    /** Whether the copy is cut short before its next operation. */
    method Stops() returns (stop: bool)
      modifies `stops
      ensures stops == if stop then old(stops) + 1 else old(stops)
    {
      stop := *;
      if stop { stops := stops + 1; }
    }

    method Put(q: Path, n: Node)
      modifies `nodes, `touched
      ensures nodes == old(nodes)[q := n] && touched == old(touched) + {q}
    {
      nodes := nodes[q := n];
      touched := touched + {q};
    }

    method Unlink(q: Path)
      modifies `nodes, `touched
      ensures nodes == old(nodes) - {q} && touched == old(touched) + {q}
    {
      nodes := nodes - {q};
      touched := touched + {q};
    }

    /** Truncates or creates the file and writes it in pieces; a stop leaves a prefix. */
    method WriteFile(q: Path, bytes: Bytes) returns (done: bool)
      modifies this
      ensures q in nodes && nodes[q].File? && nodes[q].bytes <= bytes
      ensures nodes == old(nodes)[q := nodes[q]] && touched == old(touched) + {q}
      ensures done ==> nodes[q] == File(bytes)
      ensures stops == if done then old(stops) else old(stops) + 1
    {
      Put(q, File([]));
      var k := 0;
      while k < |bytes|
        invariant 0 <= k <= |bytes|
        invariant nodes == old(nodes)[q := File(bytes[..k])] && touched == old(touched) + {q}
        invariant stops == old(stops)
      {
        var stop := Stops();
        if stop { return false; }
        var more: nat :| k < more <= |bytes|;
        Put(q, File(bytes[..more]));
        k := more;
      }
      return true;
    }

    /** What one call at `p` promises, from `before`. */
    ghost predicate Copies(src: Tree, p: Path, before: Tree, done: bool)
      reads this
    {
      && Progressed(src, before, nodes)
      && (done ==> nodes == before + SettledBelow(src, before, p))
    }

    method CopyFile(src: Tree, q: Path) returns (done: bool)
      requires q in src && src[q].File?
      modifies this
      ensures KindsAgree(src, old(nodes)) ==>
        Progressed(src, old(nodes), nodes) && (done ==> nodes == old(nodes)[q := SettledEntry(src, old(nodes), q)])
      ensures q in old(nodes) && old(nodes)[q].File? && |old(nodes)[q].bytes| == |src[q].bytes| ==>
        done && nodes == old(nodes) && touched == old(touched)
      ensures done && q in old(nodes) && old(nodes)[q].File? && |old(nodes)[q].bytes| != |src[q].bytes| ==>
        nodes == old(nodes)[q := src[q]]
      ensures done && q !in old(nodes) ==> nodes == old(nodes)[q := src[q]]
      ensures KindsAgree(src, old(nodes)) ==> touched <= old(touched) + Unfinished(src, old(nodes))
      ensures KindsAgree(src, old(nodes)) ==> stops == if done then old(stops) else old(stops) + 1
    {
      if q in nodes && nodes[q].Link? {
        done := CopyThroughLink();
        return;
      }
      if q in nodes && IsInstalled(src[q], nodes[q]) {
        return true;
      }
      if q in nodes && nodes[q].Dir? {
        return false;
      }
      var stop := Stops();
      if stop { return false; }
      done := WriteFile(q, src[q].bytes);
    }

    /** What a link in the target names is not modelled: the call may change anything. */
    method CopyThroughLink() returns (done: bool)
      modifies this
    {
      var any: Tree := *;
      var paths: set<Path> := *;
      nodes, touched, done := any, paths, *;
      if !done { stops := stops + 1; }
    }

    method CopyLink(src: Tree, q: Path) returns (done: bool)
      requires q in src && src[q].Link?
      modifies this
      ensures KindsAgree(src, old(nodes)) ==>
        Progressed(src, old(nodes), nodes) && (done ==> nodes == old(nodes)[q := src[q]])
      ensures KindsAgree(src, old(nodes)) ==> touched <= old(touched) + Unfinished(src, old(nodes))
      ensures KindsAgree(src, old(nodes)) ==> stops == if done then old(stops) else old(stops) + 1
    {
      if q in nodes {
        if nodes[q] == src[q] { return true; }
        if nodes[q].Dir? { return false; }
        var stop := Stops();
        if stop { return false; }
        Unlink(q);
      }
      var stop := Stops();
      if stop { return false; }
      Put(q, src[q]);
      return true;
    }

    /** Copies one entry by its kind. */
    method CopyEntry(src: Tree, q: Path) returns (done: bool)
      requires Closed(src) && q in src
      modifies this
      ensures KindsAgree(src, old(nodes)) ==> Copies(src, q, old(nodes), done)
      ensures KindsAgree(src, old(nodes)) ==> touched <= old(touched) + Unfinished(src, old(nodes))
      ensures KindsAgree(src, old(nodes)) ==> stops == if done then old(stops) else old(stops) + 1
      decreases Below(src, q), 1
    {
      if src[q].Dir? {
        done := CopyDir(src, q);
        return;
      }
      LeafIsAllBelow(src, nodes, q);
      if src[q].Link? {
        done := CopyLink(src, q);
      } else {
        done := CopyFile(src, q);
      }
    }

    /** Makes sure the directory `p` is there before its entries are listed. */
    method EnterDir(src: Tree, p: Path) returns (go: bool)
      requires Closed(src) && p in src && src[p].Dir?
      modifies this
      ensures KindsAgree(src, old(nodes)) ==> Progressed(src, old(nodes), nodes)
      ensures KindsAgree(src, old(nodes)) && go ==>
        nodes == old(nodes) + DoneBelow(src, old(nodes), p, NamesIn(src, p))
      ensures KindsAgree(src, old(nodes)) ==> touched <= old(touched) + Unfinished(src, old(nodes))
      ensures KindsAgree(src, old(nodes)) ==> stops == if go then old(stops) else old(stops) + 1
    {
      if KindsAgree(src, nodes) { EnteringIsDone(src, nodes, p); }
      if p in nodes && nodes[p].Link? {
        go := CopyThroughLink();
      } else if p !in nodes {
        var stop := Stops();
        if stop { return false; }
        Put(p, Dir);
        go := true;
      } else {
        go := nodes[p].Dir? || NamesIn(src, p) == {};
      }
    }

    /** Copies the directory `p` of `src`, its entries in any order. A stop, whether an
        error or the death of the process, may come before any file operation. */
    method CopyDir(src: Tree, p: Path) returns (done: bool)
      requires Closed(src) && p in src && src[p].Dir?
      modifies this
      ensures KindsAgree(src, old(nodes)) ==> Copies(src, p, old(nodes), done)
      ensures KindsAgree(src, old(nodes)) ==> touched <= old(touched) + Unfinished(src, old(nodes))
      ensures KindsAgree(src, old(nodes)) ==> stops == if done then old(stops) else old(stops) + 1
      decreases Below(src, p), 0
    {
      var todo := NamesIn(src, p);
      var go := EnterDir(src, p);
      if !go { return false; }
      ghost var before, agree := old(nodes), KindsAgree(src, old(nodes));
      while todo != {}
        invariant todo <= NamesIn(src, p)
        invariant agree ==> nodes == before + DoneBelow(src, before, p, todo)
        invariant agree ==> touched <= old(touched) + Unfinished(src, before) && stops == old(stops)
        decreases todo
      {
        ghost var here := nodes;
        var n :| n in todo;
        if agree { BeforeEntry(src, before, here, p, todo); }
        NamedEntry(src, p, n);
        var ok := CopyEntry(src, p + [n]);
        if agree { AfterEntry(src, before, here, nodes, p, todo, n, ok); }
        if !ok { return false; }
        todo := todo - {n};
      }
      AllNamesAreBelow(src, before, p);
      DoneIsProgress(src, before, p, {});
      return true;
    }

    /** Copies a cache entry into the target; interrupted, it leaves a target from which
        the next copy recovers, and it touches nothing the target already holds. */
    method CopyFromCache(src: Tree) returns (done: bool)
      requires Closed(src)
      modifies this
      ensures KindsAgree(src, old(nodes)) ==> Progressed(src, old(nodes), nodes)
      ensures KindsAgree(src, old(nodes)) && done ==> nodes == Settled(src, old(nodes))
      ensures KindsAgree(src, old(nodes)) ==> touched <= old(touched) + Unfinished(src, old(nodes))
      ensures KindsAgree(src, old(nodes)) ==> stops == if done then old(stops) else old(stops) + 1
    {
      done := CopyDir(src, []);
    }

    /** Fills a cache entry from an installed tree and then marks it complete. Wherever
        it stops, an entry that passes for complete holds the whole tree, provided the
        tree itself carries no marker. */
    method PopulateCache(src: Tree) returns (done: bool)
      requires Closed(src)
      modifies this
      ensures KindsAgree(src, old(nodes)) && MARKER !in src && MARKER !in old(nodes) && PassesForComplete(nodes) ==>
        nodes == Settled(src, old(nodes))[MARKER := File([])]
      ensures PartialCopy(src, old(nodes)) && MARKER !in src && MARKER !in old(nodes) && PassesForComplete(nodes) ==>
        nodes == (old(nodes) + src)[MARKER := File([])]
      ensures done ==> [".complete"] in nodes && nodes[[".complete"]] == File([])
      ensures KindsAgree(src, old(nodes)) && done && BIN in src && src[BIN].Dir? ==> PassesForComplete(nodes)
      ensures KindsAgree(src, old(nodes)) ==> stops == if done then old(stops) else old(stops) + 1
    {
      if PartialCopy(src, nodes) { PartialCopyCompletes(src, nodes); }
      done := CopyDir(src, []);
      if !done { return; }
      var stop := Stops();
      if stop { return false; }
      Put(MARKER, File([]));
    }
  }
}
