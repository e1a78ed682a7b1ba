// Names in the byte order of their encodings, which is the order of their characters.

module NameOrder {
  predicate AtMost(a: string, b: string) {
    if a == "" then true else b != "" && (a[0] < b[0] || (a[0] == b[0] && AtMost(a[1..], b[1..])))
  }

  lemma {:induction false} PrefixIsAtMost(a: string, b: string)
    requires a <= b
    ensures AtMost(a, b) && (a != b ==> !AtMost(b, a))
  {
    if a != "" { PrefixIsAtMost(a[1..], b[1..]); }
  }

  lemma {:induction false} FirstDifferenceDecides(a: string, b: string, k: nat)
    requires k < |a| && k < |b| && a[..k] == b[..k] && a[k] != b[k]
    ensures AtMost(a, b) <==> a[k] < b[k]
  {
    if k > 0 {
      assert a[0] == a[..k][0] == b[..k][0] == b[0];
      assert a[1..][..k - 1] == a[..k][1..] && b[1..][..k - 1] == b[..k][1..];
      FirstDifferenceDecides(a[1..], b[1..], k - 1);
    }
  }

  /** One name comes before another exactly when it is a prefix of it, or has the smaller
      character where they first differ. */
  lemma {:induction false} AtMostIsLexicographic(a: string, b: string)
    ensures AtMost(a, b) <==> a <= b || exists k :: 0 <= k < |a| && k < |b| && a[..k] == b[..k] && a[k] < b[k]
  {
    if a <= b {
      PrefixIsAtMost(a, b);
    } else if b <= a {
      PrefixIsAtMost(b, a);
      assert forall k :: 0 <= k < |b| ==> a[k] == b[k];
    } else {
      var k := FirstDifference(a, b);
      FirstDifferenceDecides(a, b, k);
      forall j | 0 <= j < |a| && j < |b| && a[..j] == b[..j] && a[j] < b[j]
        ensures AtMost(a, b)
      {
        FirstDifferenceDecides(a, b, j);
      }
    }
  }

  lemma {:induction false} FirstDifference(a: string, b: string) returns (k: nat)
    requires !(a <= b) && !(b <= a)
    ensures k < |a| && k < |b| && a[..k] == b[..k] && a[k] != b[k]
  {
    k := 0;
    while k < |a| && k < |b| && a[k] == b[k]
      invariant k <= |a| && k <= |b| && a[..k] == b[..k]
    {
      k := k + 1;
    }
    assert a[..|a|] == a && b[..|b|] == b;
  }

  lemma {:induction false} AtMostIsTotal(a: string, b: string)
    ensures AtMost(a, b) || AtMost(b, a)
    ensures AtMost(a, b) && AtMost(b, a) ==> a == b
  {
    if a != "" && b != "" && a[0] == b[0] {
      AtMostIsTotal(a[1..], b[1..]);
      assert a == [a[0]] + a[1..] && b == [b[0]] + b[1..];
    }
  }

  lemma {:induction false} AtMostIsTransitive(a: string, b: string, c: string)
    requires AtMost(a, b) && AtMost(b, c)
    ensures AtMost(a, c)
  {
    if a != "" && a[0] == b[0] && b[0] == c[0] {
      AtMostIsTransitive(a[1..], b[1..], c[1..]);
    }
  }

  predicate IsSorted(names: seq<string>) {
    names != [] ==> (forall n :: n in names[1..] ==> AtMost(names[0], n)) && IsSorted(names[1..])
  }

  /** In sorted names every one comes before all that follow it. */
  lemma {:induction false} SortedPairwise(names: seq<string>)
    ensures IsSorted(names) <==> forall i, j :: 0 <= i < j < |names| ==> AtMost(names[i], names[j])
  {
    if names != [] {
      SortedPairwise(names[1..]);
      assert forall i :: 0 < i < |names| ==> names[i] == names[1..][i - 1];
      assert forall n :: n in names[1..] <==> exists i :: 0 < i < |names| && names[i] == n;
    }
  }

  function Insert(name: string, names: seq<string>): seq<string> {
    if names == [] || AtMost(name, names[0]) then [name] + names else [names[0]] + Insert(name, names[1..])
  }

  function Sort(names: seq<string>): seq<string> {
    if names == [] then [] else Insert(names[0], Sort(names[1..]))
  }

  lemma {:induction false} InsertKeeps(name: string, names: seq<string>)
    requires IsSorted(names)
    ensures IsSorted(Insert(name, names)) && multiset(Insert(name, names)) == multiset{name} + multiset(names)
  {
    var r := Insert(name, names);
    if names == [] || AtMost(name, names[0]) {
      assert r[1..] == names;
      forall n | n in names ensures AtMost(name, n) {
        if n != names[0] {
          assert n in names[1..];
          AtMostIsTransitive(name, names[0], n);
        }
      }
    } else {
      InsertKeeps(name, names[1..]);
      AtMostIsTotal(name, names[0]);
      assert r[1..] == Insert(name, names[1..]) && names == [names[0]] + names[1..];
      forall n | n in r[1..] ensures AtMost(names[0], n) {
        assert n in multiset(r[1..]);
      }
    }
  }

  lemma {:induction false} SortKeeps(names: seq<string>)
    ensures IsSorted(Sort(names)) && multiset(Sort(names)) == multiset(names)
  {
    if names != [] {
      SortKeeps(names[1..]);
      InsertKeeps(names[0], Sort(names[1..]));
      assert names == [names[0]] + names[1..];
    }
  }

  lemma {:induction false} FirstIsLeast(names: seq<string>, n: string)
    requires IsSorted(names) && n in names
    ensures AtMost(names[0], n)
  {
    AtMostIsTotal(n, n);
    if n != names[0] { assert n in names[1..]; }
  }

  lemma {:induction false} SameMembers(a: seq<string>, b: seq<string>, n: string)
    requires multiset(a) == multiset(b) && n in a
    ensures n in b
  {
    assert n in multiset(a);
  }

  lemma {:induction false} FirstsAgree(a: seq<string>, b: seq<string>)
    requires a != [] && b != [] && IsSorted(a) && IsSorted(b) && multiset(a) == multiset(b)
    ensures a[0] == b[0]
  {
    SameMembers(a, b, a[0]);
    SameMembers(b, a, b[0]);
    FirstIsLeast(a, b[0]);
    FirstIsLeast(b, a[0]);
    AtMostIsTotal(a[0], b[0]);
  }

  lemma {:induction false} RestsAgree<T>(a: seq<T>, b: seq<T>)
    requires a != [] && b != [] && a[0] == b[0] && multiset(a) == multiset(b)
    ensures multiset(a[1..]) == multiset(b[1..])
  {
    assert a == [a[0]] + a[1..] && b == [b[0]] + b[1..];
    assert multiset(a[1..]) == multiset(a) - multiset{a[0]};
    assert multiset(b[1..]) == multiset(b) - multiset{b[0]};
  }

  /** There is one way to put names in order. */
  lemma {:induction false} SortedIsUnique(a: seq<string>, b: seq<string>)
    requires IsSorted(a) && IsSorted(b) && multiset(a) == multiset(b)
    ensures a == b
  {
    assert |multiset(a)| == |multiset(b)|;
    if a != [] {
      FirstsAgree(a, b);
      RestsAgree(a, b);
      SortedIsUnique(a[1..], b[1..]);
      assert a == [a[0]] + a[1..] && b == [b[0]] + b[1..];
    }
  }

  /** Two lists are equal once sorted exactly when they hold the same names. */
  lemma {:induction false} SortedEqualIff(a: seq<string>, b: seq<string>)
    ensures Sort(a) == Sort(b) <==> multiset(a) == multiset(b)
  {
    SortKeeps(a);
    SortKeeps(b);
    if multiset(a) == multiset(b) { SortedIsUnique(Sort(a), Sort(b)); }
  }

  lemma {:induction false} SortIsIdempotent(names: seq<string>)
    ensures Sort(Sort(names)) == Sort(names)
  {
    SortKeeps(names);
    SortKeeps(Sort(names));
    SortedIsUnique(Sort(Sort(names)), Sort(names));
  }
}
