// The byte-bounded summary of environment changes.

module ChangeSummary {
  import opened Text

  /** The length of a character in UTF-8. */
  function Utf8Len(c: char): nat {
    if c as int < 0x80 then 1 else if c as int < 0x800 then 2 else if c as int < 0x10000 then 3 else 4
  }

  /** The codes that fit `n` bytes: the first byte carries 7, 5, 4 or 3 bits, and each
      further one carries 6 (RFC 3629, section 3). */
  function Utf8Codes(n: nat): nat
    requires 1 <= n <= 4
  {
    if n == 1 then 0x80 else if n == 2 then 0x20 * 0x40 else if n == 3 then 0x10 * 0x40 * 0x40 else 0x8 * 0x40 * 0x40 * 0x40
  }

  /** A character takes the least number of bytes that its code fits. */
  lemma {:induction false} Utf8LenIsLeast(c: char)
    ensures 1 <= Utf8Len(c) <= 4 && c as int < Utf8Codes(Utf8Len(c))
    ensures Utf8Len(c) > 1 ==> Utf8Codes(Utf8Len(c) - 1) <= c as int
  {}

  function ByteLen(s: string): nat {
    if s == "" then 0 else Utf8Len(s[0]) + ByteLen(s[1..])
  }

  /** Unicode's White_Space property. */
  predicate IsWhitespace(c: char) {
    var n := c as int;
    || 0x9 <= n <= 0xD || n == 0x20 || n == 0x85 || n == 0xA0 || n == 0x1680 || 0x2000 <= n <= 0x200A
    || n == 0x2028 || n == 0x2029 || n == 0x202F || n == 0x205F || n == 0x3000
  }

  /** The 25 characters with that property (Unicode 15.0, PropList.txt). */
  const WHITE_SPACE := [
    9, 10, 11, 12, 13, 32, 133, 160, 5760, 8192, 8193, 8194, 8195, 8196, 8197, 8198, 8199, 8200, 8201, 8202,
    8232, 8233, 8239, 8287, 12288
  ]

  lemma {:induction false} WhitespaceIsListed(c: char)
    ensures IsWhitespace(c) <==> c as int in WHITE_SPACE
  {}

  function TrimEnd(s: string): (t: string)
    ensures t <= s
  {
    if s != "" && IsWhitespace(s[|s| - 1]) then TrimEnd(s[..|s| - 1]) else s
  }

  function StripComma(s: string): string {
    if s != "" && s[|s| - 1] == ',' then s[..|s| - 1] else s
  }

  function Commas(s: string): nat {
    if s == "" then 0 else (if s[0] == ',' then 1 else 0) + Commas(s[1..])
  }

  lemma {:induction false} CommasAreCounted(s: string)
    ensures Commas(s) == multiset(s)[',']
  {
    if s != "" {
      CommasAreCounted(s[1..]);
      assert s == [s[0]] + s[1..];
    }
  }

  // ----- Byte positions -----

  lemma {:induction false} ByteLenConcat(s: string, t: string)
    ensures ByteLen(s + t) == ByteLen(s) + ByteLen(t)
  {
    if s == "" {
      assert s + t == t;
    } else {
      ByteLenConcat(s[1..], t);
      assert (s + t)[1..] == s[1..] + t;
    }
  }

  lemma {:induction false} ByteLenPush(s: string, i: nat)
    requires i < |s|
    ensures ByteLen(s[..i + 1]) == ByteLen(s[..i]) + Utf8Len(s[i])
  {
    assert s[..i + 1] == s[..i] + [s[i]];
    ByteLenConcat(s[..i], [s[i]]);
    assert ByteLen([s[i]]) == Utf8Len(s[i]) + ByteLen([s[i]][1..]);
  }

  lemma {:induction false} ByteLenMonotone(s: string, i: nat, j: nat)
    requires i <= j <= |s|
    ensures ByteLen(s[..i]) <= ByteLen(s[..j])
    ensures i < j ==> ByteLen(s[..i]) < ByteLen(s[..j])
  {
    assert s[..j] == s[..i] + s[i..j];
    ByteLenConcat(s[..i], s[i..j]);
  }

  /** How many leading characters begin before byte `limit`. */
  ghost predicate BeginBefore(s: string, limit: nat, k: nat) {
    && k <= |s|
    && (k > 0 ==> ByteLen(s[..k - 1]) < limit)
    && (k < |s| ==> limit <= ByteLen(s[..k]))
  }

  /** `k` characters end at a cut the summary may make: after all characters that begin
      before `maxLen`, or after the last comma among them if it ends in the latter half. */
  ghost predicate IsPreferredCut(s: string, maxLen: nat, k: nat) {
    exists all :: BeginBefore(s, maxLen, all) && k == PreferredIn(s, maxLen, all)
  }

  /** The length of the shortest prefix of `s` with all its commas; 0 when it has none. */
  function AfterLastComma(s: string): (k: nat)
    ensures k <= |s|
  {
    if s == "" then 0 else if s[|s| - 1] == ',' then |s| else AfterLastComma(s[..|s| - 1])
  }

  function PreferredIn(s: string, maxLen: nat, all: nat): (k: nat)
    requires all <= |s|
    ensures k <= all
  {
    var comma := AfterLastComma(s[..all]);
    if comma > 0 && ByteLen(s[..comma]) * 2 > maxLen then comma else all
  }

  lemma {:induction false} LastCommaIs(s: string, j: nat)
    requires j < |s| && s[j] == ',' && ',' !in s[j + 1..]
    ensures AfterLastComma(s) == j + 1
  {
    if j < |s| - 1 {
      assert s[|s| - 1] == s[j + 1..][|s| - j - 2];
      assert s[..|s| - 1][j + 1..] == s[j + 1..][..|s| - j - 2];
      LastCommaIs(s[..|s| - 1], j);
    }
  }

  lemma {:induction false} NoLastComma(s: string)
    requires ',' !in s
    ensures AfterLastComma(s) == 0
  {
    if s != "" { NoLastComma(s[..|s| - 1]); }
  }

  /** Of the `all` characters that begin before the limit the cut keeps those up to the last
      comma, at `j`, if its end lies beyond half the limit, and all of them otherwise. */
  lemma {:induction false} CutIsAtLastComma(s: string, maxLen: nat, all: nat, j: nat)
    requires j < all <= |s| && s[j] == ',' && ',' !in s[j + 1..all]
    ensures PreferredIn(s, maxLen, all) == if 2 * ByteLen(s[..j + 1]) > maxLen then j + 1 else all
  {
    assert s[..all][j + 1..] == s[j + 1..all];
    LastCommaIs(s[..all], j);
  }

  lemma {:induction false} NoCommaNoCut(s: string, maxLen: nat, all: nat)
    requires all <= |s| && ',' !in s[..all]
    ensures PreferredIn(s, maxLen, all) == all
  {
    NoLastComma(s[..all]);
  }

  /** The cut in bytes and in characters. */
  method FindPreferredCutPoint(s: string, maxLen: nat) returns (cut: nat, k: nat)
    ensures k <= |s| && cut == ByteLen(s[..k]) && IsPreferredCut(s, maxLen, k)
  {
    cut := 0;
    var hasComma, lastComma := false, 0;
    var comma := 0;
    var i, idx := 0, 0;
    while i < |s| && idx < maxLen
      invariant i <= |s| && idx == cut == ByteLen(s[..i])
      invariant i > 0 ==> ByteLen(s[..i - 1]) < maxLen
      invariant comma == AfterLastComma(s[..i]) && hasComma == (comma > 0) && lastComma == ByteLen(s[..comma])
    {
      ByteLenPush(s, i);
      assert s[..i + 1][..i] == s[..i];
      cut := idx + Utf8Len(s[i]);
      if s[i] == ',' {
        hasComma, lastComma, comma := true, cut, i + 1;
      }
      idx, i := cut, i + 1;
    }
    k := PreferredIn(s, maxLen, i);
    assert BeginBefore(s, maxLen, i);
    assert s[..i][..comma] == s[..comma];
    if hasComma && lastComma * 2 > maxLen {
      cut := lastComma;
    }
  }

  // ----- The truncated summary -----

  /** How many entries the summary says it shows of the first `k` characters. */
  function Shown(s: string, k: nat): nat
    requires k <= |s|
  {
    Commas(StripComma(TrimEnd(s[..k]))) + 1
  }

  predicate EndsWith(s: string, t: string) {
    |t| <= |s| && s[|s| - |t|..] == t
  }

  function Omitted(remaining: nat): string {
    "+ " + Decimal(remaining) + " more"
  }

  function Suffix(t: string, shown: nat, count: nat): string {
    if count > shown then
      (if t != "" && t[|t| - 1] != ',' then ", " else "") + Omitted(count - shown)
    else if EndsWith(t, "...") then "" else "..."
  }

  /** After a text that neither is empty nor ends in a comma comes a separator, and then how
      many entries are left; with none left the text ends in an ellipsis. */
  lemma {:induction false} SuffixSaysWhatIsLeft(t: string, shown: nat, count: nat)
    ensures count > shown && (t == "" || t[|t| - 1] == ',') ==> Suffix(t, shown, count) == "+ " + Decimal(count - shown) + " more"
    ensures count > shown && t != "" && t[|t| - 1] != ',' ==> Suffix(t, shown, count) == ", + " + Decimal(count - shown) + " more"
    ensures count <= shown ==>
      Suffix(t, shown, count) == "..." || (Suffix(t, shown, count) == "" && |t| >= 3 && t[|t| - 3..] == "...")
  {
    if count > shown {
      var rest := Decimal(count - shown) + " more";
      assert ", " + "+ " == ", + ";
      assert ", " + Omitted(count - shown) == ", + " + rest;
    }
  }

  method AppendTruncationSuffix(t: string, shown: nat, count: nat) returns (r: string)
    ensures r == t + Suffix(t, shown, count)
  {
    r := t;
    if count > shown {
      var separator := if r != "" && r[|r| - 1] != ',' then ", " else "";
      assert r + separator + Omitted(count - shown) == r + (separator + Omitted(count - shown));
      r := r + separator;
      r := r + Omitted(count - shown);
    } else if !EndsWith(r, "...") {
      r := r + "...";
    } else {
      assert r + "" == r;
    }
  }

  method TakeBytes(s: string, cut: nat, ghost k: nat) returns (t: string)
    requires k <= |s| && cut == ByteLen(s[..k])
    ensures t == s[..k]
  {
    t := "";
    var i, idx := 0, 0;
    while i < |s| && idx < cut
      invariant i <= k && idx == ByteLen(s[..i]) && t == s[..i]
    {
      ByteLenPush(s, i);
      if i >= k { ByteLenMonotone(s, k, i); }
      t, idx, i := t + [s[i]], idx + Utf8Len(s[i]), i + 1;
    }
    ByteLenMonotone(s, i, k);
  }

  method CountCommas(s: string) returns (n: nat)
    ensures n == Commas(s)
  {
    n := 0;
    for i := |s| downto 0
      invariant n == Commas(s[i..])
    {
      n := n + if s[i] == ',' then 1 else 0;
    }
  }

  /** The summary cut after `k` characters. */
  function Summary(s: string, k: nat, count: nat): string
    requires k <= |s|
  {
    TrimEnd(s[..k]) + Suffix(TrimEnd(s[..k]), Shown(s, k), count)
  }

  /** The summary is the input when it fits. Otherwise it is a preferred cut of it,
      trimmed, followed by what was left out. */
  method TruncateEnvChangesSummary(changes: string, maxLen: nat, changeCount: nat) returns (r: string, ghost k: nat)
    ensures k <= |changes|
    ensures ByteLen(changes) <= maxLen ==> r == changes
    ensures ByteLen(changes) > maxLen ==> IsPreferredCut(changes, maxLen, k) && r == Summary(changes, k, changeCount)
  {
    if ByteLen(changes) <= maxLen {
      return changes, 0;
    }
    var cut;
    cut, k := FindPreferredCutPoint(changes, maxLen);
    var truncated := TakeBytes(changes, cut, k);
    truncated := TrimEnd(truncated);
    var commas := CountCommas(StripComma(truncated));
    assert commas + 1 == Shown(changes, k);
    r := AppendTruncationSuffix(truncated, commas + 1, changeCount);
  }

  // ----- What the summary means -----

  /** The shown prefix exceeds the limit by at most three bytes: the rest of the
      character that straddles it. */
  lemma {:induction false} ShownPrefixIsBounded(s: string, maxLen: nat, k: nat)
    requires k <= |s| && IsPreferredCut(s, maxLen, k)
    ensures TrimEnd(s[..k]) <= s && ByteLen(TrimEnd(s[..k])) <= maxLen + 3
  {
    var all: nat :| BeginBefore(s, maxLen, all) && k == PreferredIn(s, maxLen, all);
    var t := TrimEnd(s[..k]);
    assert t == s[..|t|];
    ByteLenMonotone(s, |t|, all);
    if all > 0 {
      ByteLenPush(s, all - 1);
    }
  }

  function Join(entries: seq<string>): string {
    if |entries| == 0 then ""
    else if |entries| == 1 then entries[0]
    else entries[0] + ", " + Join(entries[1..])
  }

  predicate IsEntry(e: string) {
    e != "" && !IsWhitespace(e[0]) && ',' !in e
  }

  /** How many of the joined entries begin before character `k`. */
  function Begun(entries: seq<string>, k: nat): nat {
    if entries == [] || k == 0 then 0
    else 1 + Begun(entries[1..], if k < |entries[0]| + 2 then 0 else k - |entries[0]| - 2)
  }

  lemma {:induction false} CommasConcat(s: string, t: string)
    ensures Commas(s + t) == Commas(s) + Commas(t)
  {
    if s == "" {
      assert s + t == t;
    } else {
      CommasConcat(s[1..], t);
      assert (s + t)[1..] == s[1..] + t;
    }
  }

  lemma {:induction false} NoCommas(s: string)
    requires ',' !in s
    ensures Commas(s) == 0
  {
    if s != "" {
      NoCommas(s[1..]);
    }
  }

  /** Trimming the end of `s + t` leaves `s` alone while `t` begins with a visible character. */
  lemma {:induction false} TrimEndConcat(s: string, t: string)
    requires t != "" && !IsWhitespace(t[0])
    ensures TrimEnd(s + t) == s + TrimEnd(t) && TrimEnd(t) != ""
    decreases |t|
  {
    assert (s + t)[|s + t| - 1] == t[|t| - 1];
    if |t| > 1 && IsWhitespace(t[|t| - 1]) {
      assert (s + t)[..|s + t| - 1] == s + t[..|t| - 1];
      TrimEndConcat(s, t[..|t| - 1]);
    }
  }

  lemma {:induction false} TrimEndOfPrefix(e: string, j: nat)
    requires IsEntry(e) && j <= |e|
    ensures ',' !in TrimEnd(e[..j])
  {
    assert TrimEnd(e[..j]) <= e;
  }

  lemma {:induction false} CommasConcat3(e: string, t: string)
    requires ',' !in e
    ensures Commas(e + ", " + t) == 1 + Commas(t)
  {
    CommasConcat(e + ", ", t);
    CommasConcat(e, ", ");
    NoCommas(e);
    assert Commas(", ") == 1 + Commas(", "[1..]) && Commas(", "[1..]) == Commas(", "[1..][1..]);
  }

  /** The cut ends inside the first entry or its separator: one entry is shown. */
  lemma {:induction false} CutInFirst(e: string, rest: string, k: nat)
    requires IsEntry(e) && 0 < k <= |e| + 2 && k <= |e + rest| && (rest == "" || ", " <= rest)
    ensures Shown(e + rest, k) == 1
  {
    var s := e + rest;
    if k <= |e| {
      assert s[..k] == e[..k];
      TrimEndOfPrefix(e, k);
      NoCommas(StripComma(TrimEnd(s[..k])));
    } else {
      assert s[..|e| + 1] == e + ",";
      if k == |e| + 2 {
        assert s[..k] == e + ", " && s[..k][..k - 1] == s[..|e| + 1];
      }
      assert TrimEnd(s[..k]) == e + ",";
      assert StripComma(e + ",") == e;
      NoCommas(e);
    }
  }

  lemma {:induction false} CutAfterFirst(e: string, rest: string, k: nat)
    requires IsEntry(e) && rest != "" && !IsWhitespace(rest[0]) && rest[0] != ',' && 0 < k <= |rest|
    ensures Shown(e + ", " + rest, |e| + 2 + k) == 1 + Shown(rest, k)
  {
    var s, t := e + ", " + rest, TrimEnd(rest[..k]);
    assert s[..|e| + 2 + k] == e + ", " + rest[..k];
    TrimEndConcat(e + ", ", rest[..k]);
    assert t[0] == rest[0];
    assert StripComma(e + ", " + t) == e + ", " + StripComma(t);
    CommasConcat3(e, StripComma(t));
  }

  /** A summary of comma-free entries counts exactly the entries that begin before its cut. */
  lemma {:induction false} ShownCountsBegun(entries: seq<string>, k: nat)
    requires |entries| > 0 && 0 < k <= |Join(entries)| && forall i :: 0 <= i < |entries| ==> IsEntry(entries[i])
    ensures Shown(Join(entries), k) == Begun(entries, k) <= |entries|
  {
    var e := entries[0];
    if |entries| == 1 {
      assert e + "" == e;
      CutInFirst(e, "", k);
    } else {
      var rest := Join(entries[1..]);
      assert Join(entries) == e + (", " + rest) == e + ", " + rest;
      assert rest[0] == entries[1][0];
      if k <= |e| + 2 {
        CutInFirst(e, ", " + rest, k);
      } else {
        CutAfterFirst(e, rest, k - |e| - 2);
        ShownCountsBegun(entries[1..], k - |e| - 2);
      }
    }
  }

  lemma {:induction false} CutIsPositiveIff(s: string, maxLen: nat, k: nat)
    requires s != "" && IsPreferredCut(s, maxLen, k)
    ensures k > 0 <==> maxLen > 0
  {
    var all: nat :| BeginBefore(s, maxLen, all) && k == PreferredIn(s, maxLen, all);
  }

  lemma {:induction false} SummaryEnds(s: string, k: nat, count: nat)
    requires k <= |s|
    ensures Shown(s, k) < count ==> EndsWith(Summary(s, k, count), "+ " + Decimal(count - Shown(s, k)) + " more")
    ensures Shown(s, k) >= count ==> EndsWith(Summary(s, k, count), "...")
  {
    var t := TrimEnd(s[..k]);
    SuffixSaysWhatIsLeft(t, Shown(s, k), count);
    if Shown(s, k) < count {
      var left := Omitted(count - Shown(s, k));
      assert Suffix(t, Shown(s, k), count)[|Suffix(t, Shown(s, k), count)| - |left|..] == left;
    }
  }

  /** Shown and reported-as-omitted entries add up to all of them, and what is shown is
      what began before the cut, exactly when the limit is not zero. */
  lemma {:induction false} SummaryAccountsForEveryEntry(entries: seq<string>, maxLen: nat, k: nat)
    requires |entries| > 0 && forall i :: 0 <= i < |entries| ==> IsEntry(entries[i])
    requires k <= |Join(entries)| && IsPreferredCut(Join(entries), maxLen, k)
    ensures Shown(Join(entries), k) == Begun(entries, k) <==> maxLen > 0
    ensures Shown(Join(entries), k) <= |entries|
    ensures maxLen > 0 && Begun(entries, k) < |entries| ==>
      EndsWith(Summary(Join(entries), k, |entries|), "+ " + Decimal(|entries| - Begun(entries, k)) + " more")
    ensures maxLen > 0 && Begun(entries, k) == |entries| ==> EndsWith(Summary(Join(entries), k, |entries|), "...")
  {
    assert Join(entries) != "" by { assert entries[0] != ""; }
    CutIsPositiveIff(Join(entries), maxLen, k);
    if k > 0 {
      ShownCountsBegun(entries, k);
      SummaryEnds(Join(entries), k, |entries|);
    } else {
      assert Join(entries)[..0] == "";
      assert Shown(Join(entries), 0) == 1;
    }
  }
}
