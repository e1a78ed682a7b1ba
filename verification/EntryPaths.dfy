// Which archive paths an extension may install, and their canonical form.

module EntryPaths {
  import opened Options
  import opened Paths

  /** The components of a Unix path as the standard library walks them. */
  datatype Component = RootDir | CurDir | ParentDir | Normal(name: string)

  function Split(s: string): (pieces: seq<string>)
    ensures pieces != []
  {
    if s == "" then [""]
    else
      var rest := Split(s[1..]);
      if s[0] == '/' then [""] + rest else [[s[0]] + rest[0]] + rest[1..]
  }

  /** What one piece between slashes contributes: empty pieces and dots vanish. */
  function Step(piece: string): seq<Component> {
    if piece == "" || piece == "." then [] else if piece == ".." then [ParentDir] else [Normal(piece)]
  }

  function Walk(pieces: seq<string>): seq<Component> {
    if pieces == [] then [] else Step(pieces[0]) + Walk(pieces[1..])
  }

  function Components(raw: string): seq<Component> {
    var pieces := Split(raw);
    if raw != "" && raw[0] == '/' then [RootDir] + Walk(pieces)
    else if pieces[0] == "." then [CurDir] + Walk(pieces)
    else Walk(pieces)
  }

  predicate IsPlain(part: string) {
    '\\' !in part && '/' !in part
  }

  /** The plain names of `parts`, unless one is not a plain name. */
  function Names(parts: seq<Component>): Option<Path> {
    if parts == [] then Some([])
    else if !parts[0].Normal? || !IsPlain(parts[0].name) then None
    else
      var rest := Names(parts[1..]);
      if rest.None? then None else Some([parts[0].name] + rest.value)
  }

  /** The names between the slashes; empty pieces and dots vanish. */
  function PlainNames(pieces: seq<string>): Option<Path> {
    if pieces == [] then Some([])
    else
      var rest := PlainNames(pieces[1..]);
      if pieces[0] == "" || pieces[0] == "." then rest
      else if rest.None? || pieces[0] == ".." || !IsPlain(pieces[0]) then None
      else Some([pieces[0]] + rest.value)
  }

  /** The plain names of a relative path. */
  function NormalNames(raw: string): Option<Path> {
    if raw != "" && raw[0] == '/' then None else PlainNames(Split(raw))
  }

  lemma {:induction false} WalkKeepsNames(pieces: seq<string>)
    ensures Names(Walk(pieces)) == PlainNames(pieces)
  {
    if pieces != [] {
      WalkKeepsNames(pieces[1..]);
      if Step(pieces[0]) == [] {
        assert Walk(pieces) == Walk(pieces[1..]);
      } else {
        assert Walk(pieces)[1..] == Walk(pieces[1..]);
      }
    }
  }

  /** What is read off the components, less a leading dot, are the plain names. */
  lemma {:induction false} ComponentsGiveNames(raw: string)
    ensures var parts := Components(raw);
      NormalNames(raw) == if parts != [] && parts[0].CurDir? then Names(parts[1..]) else Names(parts)
  {
    var pieces := Split(raw);
    WalkKeepsNames(pieces);
    assert ([CurDir] + Walk(pieces))[1..] == Walk(pieces);
  }

  lemma {:induction false} NamesAppend(parts: seq<Component>, last: Component)
    ensures Names(parts + [last]) ==
      if Names(parts).Some? && last.Normal? && IsPlain(last.name) then Some(Names(parts).value + [last.name]) else None
  {
    var all := parts + [last];
    if parts == [] {
      assert all == [last] && all[1..] == [];
      if Names(all).Some? {
        assert Names(all).value == [last.name] + [] == [] + [last.name];
      }
    } else {
      assert all[1..] == parts[1..] + [last] && all[0] == parts[0];
      NamesAppend(parts[1..], last);
      if Names(all).Some? {
        ConcatAssoc([parts[0].name], Names(parts[1..]).value, [last.name]);
      }
    }
  }

  lemma {:induction false} NamesNeedEveryPart(parts: seq<Component>, more: seq<Component>)
    requires Names(parts).None?
    ensures Names(parts + more).None?
    decreases |more|
  {
    if more == [] {
      assert parts + more == parts;
    } else {
      NamesAppend(parts, more[0]);
      assert parts + more == (parts + [more[0]]) + more[1..];
      NamesNeedEveryPart(parts + [more[0]], more[1..]);
    }
  }

  lemma {:induction false} TakeOneMore<T>(s: seq<T>, k: nat)
    requires k < |s|
    ensures s[..k + 1] == s[..k] + [s[k]]
  {
  }

  /** One component that is not a plain name spoils the whole path. */
  lemma {:induction false} NamesStopAt(parts: seq<Component>, i: nat)
    requires i < |parts| && !(parts[i].Normal? && IsPlain(parts[i].name))
    ensures Names(parts).None?
  {
    NamesAppend(parts[..i], parts[i]);
    assert parts[..i + 1] == parts[..i] + [parts[i]];
    NamesNeedEveryPart(parts[..i + 1], parts[i + 1..]);
    assert parts == parts[..i + 1] + parts[i + 1..];
  }

  /** Splits `raw` into plain names, tolerating only a leading dot. */
  method NormalComponents(raw: string) returns (names: Option<Path>)
    ensures names == NormalNames(raw)
  {
    var components := Components(raw);
    ComponentsGiveNames(raw);
    ghost var from := if components != [] && components[0].CurDir? then 1 else 0;
    ghost var parts := components[from..];
    var found: Path := [];
    var index := 0;
    while index < |components|
      invariant index <= |components| && (index < from ==> found == [])
      invariant from <= index ==> Names(parts[..index - from]) == Some(found)
    {
      var component := components[index];
      if component.CurDir? && index == 0 {
      } else if component.Normal? && IsPlain(component.name) {
        NamesAppend(parts[..index - from], component);
        TakeOneMore(parts, index - from);
        found := found + [component.name];
      } else {
        NamesStopAt(parts, index - from);
        return None;
      }
      index := index + 1;
    }
    assert parts[..|parts|] == parts;
    return Some(found);
  }

  /** `lib/<file>` and `share/extension/<path...>` only. */
  predicate IsAllowedLayout(p: Path) {
    || (|p| == 2 && p[0] == "lib")
    || (|p| >= 3 && p[0] == "share" && p[1] == "extension")
  }

  /** The canonical path an archive entry installs to, if the hook accepts it. */
  function Classify(raw: string): Option<Path> {
    var names := NormalNames(raw);
    if names.Some? && IsAllowedLayout(names.value) then names else None
  }

  method ClassifyEntryPath(raw: string) returns (r: Option<Path>)
    ensures r == Classify(raw)
  {
    var names := NormalComponents(raw);
    if names.Some? && IsAllowedLayout(names.value) { return names; }
    return None;
  }

  // ----- What classification means -----

  predicate IsRealName(n: string) {
    n != "" && n != "." && n != ".." && IsPlain(n)
  }

  /** A path that stays below the install root's library and extension directories. */
  predicate IsCanonical(p: Path) {
    IsAllowedLayout(p) && forall i :: 0 <= i < |p| ==> IsRealName(p[i])
  }

  function JoinPath(p: Path): string {
    if p == [] then "" else if |p| == 1 then p[0] else p[0] + "/" + JoinPath(p[1..])
  }

  lemma {:induction false} NamesAreReal(pieces: seq<string>)
    requires PlainNames(pieces).Some?
    ensures forall n :: n in PlainNames(pieces).value ==> IsRealName(n)
  {
    if pieces != [] { NamesAreReal(pieces[1..]); }
  }

  /** An accepted path is canonical: no empty, dot or parent component, no separator. */
  lemma {:induction false} ClassifiedIsCanonical(raw: string)
    requires Classify(raw).Some?
    ensures IsCanonical(Classify(raw).value)
  {
    NamesAreReal(Split(raw));
  }

  lemma {:induction false} SplitPlain(s: string)
    requires '/' !in s
    ensures Split(s) == [s]
  {
    if s != "" {
      SplitPlain(s[1..]);
      assert [s[0]] + s[1..] == s;
    }
  }

  lemma {:induction false} ConcatAssoc<T>(a: seq<T>, b: seq<T>, c: seq<T>)
    ensures a + (b + c) == (a + b) + c
  {
  }

  lemma {:induction false} SplitAppend(s: string, t: string)
    ensures Split(s + "/" + t) == Split(s) + Split(t)
  {
    if s == "" {
      assert s + "/" + t == "/" + t && ("/" + t)[1..] == t;
    } else {
      var rest := Split(s[1..]);
      SplitAppend(s[1..], t);
      assert (s + "/" + t)[1..] == s[1..] + "/" + t;
      if s[0] == '/' {
        ConcatAssoc([""], rest, Split(t));
      } else {
        assert (rest + Split(t))[0] == rest[0] && (rest + Split(t))[1..] == rest[1..] + Split(t);
        ConcatAssoc([[s[0]] + rest[0]], rest[1..], Split(t));
      }
    }
  }

  lemma {:induction false} SplitJoin(p: Path)
    requires p != [] && forall i :: 0 <= i < |p| ==> IsRealName(p[i])
    ensures Split(JoinPath(p)) == p
  {
    if |p| == 1 {
      SplitPlain(p[0]);
    } else {
      SplitPlain(p[0]);
      SplitAppend(p[0], JoinPath(p[1..]));
      SplitJoin(p[1..]);
      assert [p[0]] + p[1..] == p;
    }
  }

  lemma {:induction false} RealNamesAreKept(p: Path)
    requires forall i :: 0 <= i < |p| ==> IsRealName(p[i])
    ensures PlainNames(p) == Some(p)
  {
    if p != [] {
      RealNamesAreKept(p[1..]);
      assert [p[0]] + p[1..] == p;
    }
  }

  /** Classification is a projection: a canonical path, written out, is accepted as
      itself, so the accepted paths are exactly the canonical ones. */
  lemma {:induction false} ClassifyIsIdempotent(p: Path)
    requires IsCanonical(p)
    ensures Classify(JoinPath(p)) == Some(p)
  {
    SplitJoin(p);
    RealNamesAreKept(p);
    assert p[0] == Split(JoinPath(p))[0];
    assert JoinPath(p) != "" && JoinPath(p)[0] == p[0][0];
  }

  lemma {:induction false} TrailingNothing(pieces: seq<string>)
    ensures PlainNames(pieces + [""]) == PlainNames(pieces)
  {
    if pieces == [] {
      assert [""][1..] == [] && [] + [""] == [""];
    } else {
      TrailingNothing(pieces[1..]);
      assert (pieces + [""])[1..] == pieces[1..] + [""] && (pieces + [""])[0] == pieces[0];
    }
  }

  /** A directory entry's name, with its trailing slash, classifies like the file's. */
  lemma {:induction false} TrailingSlashAliases(raw: string)
    requires raw != ""
    ensures Classify(raw + "/") == Classify(raw)
  {
    SplitAppend(raw, "");
    assert raw + "/" + "" == raw + "/";
    TrailingNothing(Split(raw));
    assert (raw + "/")[0] == raw[0];
  }

  // ----- What is rejected, and what makes no difference -----

  lemma {:induction false} SplitInner(a: string, piece: string, b: string)
    requires '/' !in piece
    ensures Split(a + "/" + piece + "/" + b) == Split(a) + [piece] + Split(b)
    ensures Split(piece + "/" + b) == [piece] + Split(b)
    ensures Split(a + "/" + piece) == Split(a) + [piece]
  {
    SplitPlain(piece);
    SplitAppend(piece, b);
    SplitAppend(a, piece);
    SplitAppend(a + "/" + piece, b);
  }

  /** One piece that is `..` or holds a backslash spoils the whole path. */
  lemma {:induction false} PieceSpoils(pieces: seq<string>, i: nat)
    requires i < |pieces| && (pieces[i] == ".." || '\\' in pieces[i])
    ensures PlainNames(pieces) == None
  {
    if i > 0 { PieceSpoils(pieces[1..], i - 1); }
  }

  /** No path with a parent component is accepted, wherever it is, and no absolute one. */
  lemma {:induction false} NoWayUp(a: string, b: string)
    ensures Classify(a + "/" + ".." + "/" + b) == None && Classify(".." + "/" + b) == None
    ensures Classify(a + "/" + "..") == None && Classify("..") == None
    ensures Classify("/" + b) == None
  {
    SplitInner(a, "..", b);
    SplitPlain("..");
    PieceSpoils(Split(a) + [".."] + Split(b), |Split(a)|);
    PieceSpoils([".."] + Split(b), 0);
    PieceSpoils(Split(a) + [".."], |Split(a)|);
    PieceSpoils([".."], 0);
  }

  lemma {:induction false} PieceHolds(s: string, c: char) returns (i: nat)
    requires c in s && c != '/'
    ensures i < |Split(s)| && c in Split(s)[i]
  {
    if c in s[1..] {
      var j := PieceHolds(s[1..], c);
      i := if s[0] == '/' then j + 1 else j;
    } else {
      i := 0;
    }
  }

  /** A backslash anywhere is refused, as it separates names on other platforms. */
  lemma {:induction false} NoBackslash(a: string, b: string)
    ensures Classify(a + "\\" + b) == None
  {
    var raw := a + "\\" + b;
    assert raw[|a|] == '\\';
    var i := PieceHolds(raw, '\\');
    PieceSpoils(Split(raw), i);
  }

  lemma {:induction false} NothingVanishes(before: seq<string>, piece: string, after: seq<string>)
    requires piece == "" || piece == "."
    ensures PlainNames(before + [piece] + after) == PlainNames(before + after)
  {
    if before == [] {
      assert [] + [piece] + after == [piece] + after && ([piece] + after)[1..] == after && [] + after == after;
    } else {
      NothingVanishes(before[1..], piece, after);
      assert (before + [piece] + after)[1..] == before[1..] + [piece] + after;
      assert (before + after)[1..] == before[1..] + after;
    }
  }

  /** A doubled slash and an inner dot make no difference. */
  lemma {:induction false} DotsVanish(a: string, piece: string, b: string)
    requires a != "" && (piece == "" || piece == ".")
    ensures Classify(a + "/" + piece + "/" + b) == Classify(a + "/" + b)
  {
    SplitInner(a, piece, b);
    SplitAppend(a, b);
    NothingVanishes(Split(a), piece, Split(b));
    assert (a + "/" + piece + "/" + b)[0] == a[0] == (a + "/" + b)[0];
  }

  /** A leading `./` makes no difference. */
  lemma {:induction false} LeadingDotVanishes(raw: string)
    requires raw != "" && raw[0] != '/'
    ensures Classify("." + "/" + raw) == Classify(raw)
  {
    SplitInner(raw, ".", raw);
    NothingVanishes([], ".", Split(raw));
    assert [] + ["."] + Split(raw) == ["."] + Split(raw) && [] + Split(raw) == Split(raw);
    assert ("." + "/" + raw)[0] == '.';
  }

  /** Of the paths of real names, exactly the files in `lib` and those somewhere below
      `share/extension` are accepted. */
  lemma {:induction false} OnlyLibAndShare(p: Path)
    requires p != [] && forall i :: 0 <= i < |p| ==> IsRealName(p[i])
    ensures Classify(JoinPath(p)) ==
      if (exists n :: p == ["lib", n]) || (exists rest :: rest != [] && p == ["share", "extension"] + rest) then Some(p) else None
  {
    SplitJoin(p);
    RealNamesAreKept(p);
    assert p[0] == Split(JoinPath(p))[0];
    assert JoinPath(p) != "" && JoinPath(p)[0] == p[0][0];
    if |p| == 2 && p[0] == "lib" { assert p == ["lib", p[1]]; }
    if |p| >= 3 && p[0] == "share" && p[1] == "extension" { assert p == ["share", "extension"] + p[2..]; }
  }
}
