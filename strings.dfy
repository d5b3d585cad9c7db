/**
 * The JavaScript string operations the course-lookup code relies on
 * (`toLowerCase`, `trim`, `includes`, `split`, `replace`), restricted to
 * ASCII. Every definition walks the string by index, so that the verifier
 * can evaluate it on string literals as well as reason about it in general.
 */
module Strings {

  /** JavaScript's `\s` class, restricted to ASCII: space, tab, LF, CR, VT, FF. */
  predicate IsSpace(c: char) {
    c == ' ' || c == '\t' || c == '\n' || c == '\r' || c == '\U{000B}' || c == '\U{000C}'
  }

  predicate IsUpper(c: char) { 'A' <= c <= 'Z' }

  function LowerChar(c: char): char {
    if IsUpper(c) then (c as int + 32) as char else c
  }

  /** `toLowerCase` on ASCII text: A-Z become a-z, every other character is kept. */
  function Lower(s: string): (r: string)
    ensures |r| == |s|
    ensures forall i :: 0 <= i < |s| ==> r[i] == LowerChar(s[i])
  {
    seq(|s|, i requires 0 <= i < |s| => LowerChar(s[i]))
  }

  predicate NoUpper(s: string) {
    forall i :: 0 <= i < |s| ==> !IsUpper(s[i])
  }

  lemma LowerNoUpper(s: string)
    ensures NoUpper(Lower(s))
  {
  }

  lemma LowerFixed(s: string)
    requires NoUpper(s)
    ensures Lower(s) == s
  {
  }

  lemma LowerConcat(a: string, b: string)
    ensures Lower(a + b) == Lower(a) + Lower(b)
  {
  }

  /** Dropping the first part of a concatenation leaves the second. */
  lemma DropPrefix(a: string, b: string)
    ensures (a + b)[|a|..] == b
  {
  }

  /** The character just before a suffix is the last character of what precedes it. */
  lemma LastBeforeSuffix(a: string, b: string)
    requires |a| > 0
    ensures (a + b)[|a + b| - |b| - 1] == a[|a| - 1]
  {
  }

  /** Character-by-character check that `t` is `s` lower-cased, which the verifier can run on literals. */
  predicate LowersTo(s: string, t: string, i: nat)
    requires i <= |s|
    decreases |s| - i
  {
    |s| == |t| && (i == |s| || (LowerChar(s[i]) == t[i] && LowersTo(s, t, i + 1)))
  }

  lemma {:induction false} LowersToSound(s: string, t: string, i: nat)
    requires i <= |s| && LowersTo(s, t, i)
    ensures |s| == |t| && forall k :: i <= k < |s| ==> LowerChar(s[k]) == t[k]
    decreases |s| - i
  {
    if i < |s| {
      LowersToSound(s, t, i + 1);
    }
  }

  /** A string that passes the character check lower-cases to `t`. */
  lemma LowerOf(s: string, t: string)
    requires LowersTo(s, t, 0)
    ensures Lower(s) == t
  {
    LowersToSound(s, t, 0);
  }

  // ---------------------------------------------------------------------
  // Substring search (`includes`)

  /** `sub` occurs in `s` at index `i`. */
  predicate OccursAt(s: string, sub: string, i: nat) {
    i + |sub| <= |s| && s[i..i + |sub|] == sub
  }

  /** Character-by-character comparison of `sub[j..]` with `s[i + j..]`. */
  predicate MatchFrom(s: string, sub: string, i: nat, j: nat)
    requires i + |sub| <= |s| && j <= |sub|
    decreases |sub| - j
  {
    j == |sub| || (s[i + j] == sub[j] && MatchFrom(s, sub, i, j + 1))
  }

  predicate ContainsFrom(s: string, sub: string, i: nat)
    requires i <= |s|
    decreases |s| - i
  {
    (i + |sub| <= |s| && MatchFrom(s, sub, i, 0)) || (i < |s| && ContainsFrom(s, sub, i + 1))
  }

  /** `s.includes(sub)`. */
  predicate Contains(s: string, sub: string) {
    ContainsFrom(s, sub, 0)
  }

  lemma MatchFromIff(s: string, sub: string, i: nat, j: nat)
    requires i + |sub| <= |s| && j <= |sub|
    ensures MatchFrom(s, sub, i, j) <==> s[i + j..i + |sub|] == sub[j..]
    decreases |sub| - j
  {
    if j < |sub| {
      MatchFromIff(s, sub, i, j + 1);
      assert s[i + j..i + |sub|] == [s[i + j]] + s[i + j + 1..i + |sub|];
      assert sub[j..] == [sub[j]] + sub[j + 1..];
    }
  }

  lemma ContainsFromIff(s: string, sub: string, i: nat)
    requires i <= |s|
    ensures ContainsFrom(s, sub, i) <==> exists k :: i <= k && OccursAt(s, sub, k)
    decreases |s| - i
  {
    if i + |sub| <= |s| {
      MatchFromIff(s, sub, i, 0);
    }
    if i < |s| {
      ContainsFromIff(s, sub, i + 1);
      if OccursAt(s, sub, i) {
        assert ContainsFrom(s, sub, i);
      }
      forall k | i <= k && OccursAt(s, sub, k)
        ensures k == i || (i + 1 <= k && OccursAt(s, sub, k))
      {
      }
    } else {
      if exists k :: i <= k && OccursAt(s, sub, k) {
        var k :| i <= k && OccursAt(s, sub, k);
        assert k == i && |sub| == 0;
        assert MatchFrom(s, sub, i, 0);
      }
      if ContainsFrom(s, sub, i) {
        assert OccursAt(s, sub, i);
      }
    }
  }

  /** The index-walking definition agrees with "occurs at some index". */
  lemma ContainsIff(s: string, sub: string)
    ensures Contains(s, sub) <==> exists k :: OccursAt(s, sub, k)
  {
    ContainsFromIff(s, sub, 0);
  }

  lemma ContainsAt(s: string, sub: string, k: nat)
    requires OccursAt(s, sub, k)
    ensures Contains(s, sub)
  {
    ContainsIff(s, sub);
  }

  /** A text cannot contain a longer pattern. */
  lemma NotContainsLonger(s: string, sub: string)
    requires |sub| > |s|
    ensures !Contains(s, sub)
  {
    ContainsIff(s, sub);
  }

  /** A text cannot contain a pattern one of whose characters it lacks. */
  lemma NotContainsChar(s: string, sub: string, j: nat)
    requires j < |sub| && sub[j] !in s
    ensures !Contains(s, sub)
  {
    ContainsIff(s, sub);
  }

  /** A text cannot contain a pattern if it lacks a piece of it. */
  lemma NotContainsSlice(s: string, sub: string, a: nat, b: nat)
    requires a <= b <= |sub| && !Contains(s, sub[a..b])
    ensures !Contains(s, sub)
  {
    ContainsIff(s, sub);
    ContainsIff(s, sub[a..b]);
    forall k: nat | OccursAt(s, sub, k) ensures OccursAt(s, sub[a..b], k + a) {
      forall t | 0 <= t < b - a ensures s[k + a..k + b][t] == sub[a..b][t] {
        assert s[k..k + |sub|][a + t] == sub[a + t];
      }
      assert s[k + a..k + b] == sub[a..b];
    }
  }

  lemma ContainsSelf(s: string)
    ensures Contains(s, s)
  {
    assert OccursAt(s, s, 0);
    ContainsAt(s, s, 0);
  }

  lemma ContainsEmpty(s: string)
    ensures Contains(s, "")
  {
    assert OccursAt(s, "", 0);
    ContainsAt(s, "", 0);
  }

  /** A non-empty string does not occur in the empty string. */
  lemma NotContainedInEmpty(sub: string)
    requires |sub| > 0
    ensures !Contains("", sub)
  {
    ContainsIff("", sub);
  }

  /** Lower-casing preserves occurrences of lower-case text. */
  lemma ContainsLower(s: string, sub: string)
    requires NoUpper(sub)
    requires Contains(s, sub)
    ensures Contains(Lower(s), sub)
  {
    ContainsIff(s, sub);
    var k: nat :| OccursAt(s, sub, k);
    assert Lower(s)[k..k + |sub|] == Lower(s[k..k + |sub|]);
    LowerFixed(sub);
    ContainsAt(Lower(s), sub, k);
  }

  // ---------------------------------------------------------------------
  // Trimming (`trim`)

  /** Index of the first non-space character at or after `i`, or |s|. */
  function SkipSpaces(s: string, i: nat): (k: nat)
    requires i <= |s|
    ensures i <= k <= |s|
    ensures forall j :: i <= j < k ==> IsSpace(s[j])
    ensures k < |s| ==> !IsSpace(s[k])
    decreases |s| - i
  {
    if i < |s| && IsSpace(s[i]) then SkipSpaces(s, i + 1) else i
  }

  /** Walking back from `j`: the end of the last non-space character before `j`, or 0. */
  function SkipSpacesBack(s: string, j: nat): (k: nat)
    requires j <= |s|
    ensures k <= j
    ensures forall m :: k <= m < j ==> IsSpace(s[m])
    ensures 0 < k ==> !IsSpace(s[k - 1])
  {
    if 0 < j && IsSpace(s[j - 1]) then SkipSpacesBack(s, j - 1) else j
  }

  predicate NoEdgeSpace(r: string) {
    |r| > 0 ==> !IsSpace(r[0]) && !IsSpace(r[|r| - 1])
  }

  /** `trim`: removes leading and trailing whitespace. */
  function Trim(s: string): (r: string)
    ensures NoEdgeSpace(r)
    ensures |r| <= |s|
  {
    var a := SkipSpaces(s, 0);
    var b := SkipSpacesBack(s, |s|);
    if b <= a then [] else s[a..b]
  }

  /** What `trim` removes is whitespace only, and what it keeps is a slice of the input. */
  lemma TrimSlice(s: string)
    ensures var a, b := SkipSpaces(s, 0), SkipSpacesBack(s, |s|);
      (b <= a ==> Trim(s) == [] && forall j :: 0 <= j < |s| ==> IsSpace(s[j])) &&
      (a < b ==> Trim(s) == s[a..b])
  {
    var a, b := SkipSpaces(s, 0), SkipSpacesBack(s, |s|);
    if b <= a {
      forall j | 0 <= j < |s| ensures IsSpace(s[j]) {
        if a <= j && b <= j {
          assert IsSpace(s[j]);
        }
      }
    }
  }

  lemma TrimFixed(s: string)
    requires NoEdgeSpace(s)
    ensures Trim(s) == s
  {
    if |s| > 0 {
      assert SkipSpaces(s, 0) == 0;
      assert SkipSpacesBack(s, |s|) == |s|;
    }
  }

  // ---------------------------------------------------------------------
  // Splitting on a single character (`split`)

  /** Index of the first `c` at or after `i`, or |s|. */
  function IndexOf(s: string, c: char, i: nat): (k: nat)
    requires i <= |s|
    ensures i <= k <= |s|
    ensures forall j :: i <= j < k ==> s[j] != c
    ensures k < |s| ==> s[k] == c
    decreases |s| - i
  {
    if i == |s| || s[i] == c then i else IndexOf(s, c, i + 1)
  }

  function SplitFrom(s: string, sep: char, i: nat): (parts: seq<string>)
    requires i <= |s|
    ensures |parts| >= 1
    decreases |s| - i
  {
    var k := IndexOf(s, sep, i);
    if k == |s| then [s[i..]] else [s[i..k]] + SplitFrom(s, sep, k + 1)
  }

  /** `s.split(sep)` for a one-character separator. */
  function Split(s: string, sep: char): (parts: seq<string>)
    ensures |parts| >= 1
  {
    SplitFrom(s, sep, 0)
  }

  /** `parts.join(sep)`. */
  function Join(parts: seq<string>, sep: char): string
    requires |parts| >= 1
  {
    if |parts| == 1 then parts[0] else parts[0] + [sep] + Join(parts[1..], sep)
  }

  lemma {:induction false} SplitFromJoin(s: string, sep: char, i: nat)
    requires i <= |s|
    ensures Join(SplitFrom(s, sep, i), sep) == s[i..]
    decreases |s| - i
  {
    var k := IndexOf(s, sep, i);
    if k < |s| {
      SplitFromJoin(s, sep, k + 1);
      var rest := SplitFrom(s, sep, k + 1);
      assert SplitFrom(s, sep, i) == [s[i..k]] + rest;
      assert s[i..] == s[i..k] + [sep] + s[k + 1..];
    }
  }

  lemma {:induction false} SplitFromPieces(s: string, sep: char, i: nat)
    requires i <= |s|
    ensures forall p :: p in SplitFrom(s, sep, i) ==> sep !in p
    decreases |s| - i
  {
    var k := IndexOf(s, sep, i);
    if k < |s| {
      SplitFromPieces(s, sep, k + 1);
      assert sep !in s[i..k];
    } else {
      assert sep !in s[i..];
    }
  }

  /** Splitting and joining again gives back the string; no piece holds the separator. */
  lemma SplitJoin(s: string, sep: char)
    ensures Join(Split(s, sep), sep) == s
    ensures forall p :: p in Split(s, sep) ==> sep !in p
  {
    SplitFromJoin(s, sep, 0);
    SplitFromPieces(s, sep, 0);
  }

  /** There are at least two pieces exactly when the separator occurs. */
  lemma SplitCount(s: string, sep: char)
    ensures |Split(s, sep)| >= 2 <==> sep in s
  {
    var k := IndexOf(s, sep, 0);
    if k < |s| {
      assert |Split(s, sep)| == 1 + |SplitFrom(s, sep, k + 1)|;
    }
  }

  lemma IndexOfAt(s: string, c: char, i: nat, k: nat)
    requires i <= k < |s| && s[k] == c
    requires c !in s[i..k]
    ensures IndexOf(s, c, i) == k
    decreases k - i
  {
    if i < k {
      assert s[i] in s[i..k];
      assert s[i + 1..k] == s[i..k][1..];
      IndexOfAt(s, c, i + 1, k);
    }
  }

  lemma IndexOfNone(s: string, c: char, i: nat)
    requires i <= |s| && c !in s[i..]
    ensures IndexOf(s, c, i) == |s|
    decreases |s| - i
  {
    if i < |s| {
      assert s[i] in s[i..];
      assert s[i + 1..] == s[i..][1..];
      IndexOfNone(s, c, i + 1);
    }
  }

  /** The first two pieces of a split are what precedes the first separator and what follows it up to the next one. */
  lemma SplitFirstTwo(a: string, sep: char, m: string, rest: string)
    requires sep !in a && sep !in m
    ensures var parts := Split(a + [sep] + m + rest, sep);
      |parts| >= 2 && parts[0] == a &&
      (rest == [] ==> |parts| == 2 && parts[1] == m) &&
      (|rest| > 0 && rest[0] == sep ==> |parts| >= 3 && parts[1] == m)
  {
    var s := a + [sep] + m + rest;
    assert s[0..|a|] == a;
    IndexOfAt(s, sep, 0, |a|);
    var i := |a| + 1;
    assert s[i..i + |m|] == m;
    var tail := SplitFrom(s, sep, i);
    assert Split(s, sep) == [a] + tail;
    if rest == [] {
      assert s[i..] == m;
      IndexOfNone(s, sep, i);
      assert tail == [m];
    } else if rest[0] == sep {
      IndexOfAt(s, sep, i, i + |m|);
      assert tail == [m] + SplitFrom(s, sep, i + |m| + 1);
    }
  }

  /** The first piece of a split is what precedes the first separator. */
  lemma SplitFirst(a: string, sep: char, rest: string)
    requires sep !in a
    ensures Split(a + [sep] + rest, sep)[0] == a
  {
    var s := a + [sep] + rest;
    assert s[0..|a|] == a;
    IndexOfAt(s, sep, 0, |a|);
  }

  /** Trimming keeps no character that was not there. */
  lemma TrimKeepsOut(s: string, c: char)
    requires c !in s
    ensures c !in Trim(s)
  {
    TrimSlice(s);
  }

  // ---------------------------------------------------------------------
  // Replacing text (`replace`)

  /** Index of the first occurrence of `pat` at or after `i`, or |s| + 1 when there is none. */
  function FindFrom(s: string, pat: string, i: nat): (k: nat)
    requires i <= |s|
    ensures i <= k <= |s| + 1
    ensures k <= |s| ==> OccursAt(s, pat, k)
    ensures forall j :: i <= j < k && j <= |s| ==> !OccursAt(s, pat, j)
    decreases |s| - i
  {
    if i + |pat| <= |s| && MatchFrom(s, pat, i, 0) then
      MatchFromIff(s, pat, i, 0);
      i
    else
      MatchFromIff2(s, pat, i);
      if i == |s| then |s| + 1 else FindFrom(s, pat, i + 1)
  }

  lemma MatchFromIff2(s: string, pat: string, i: nat)
    ensures i + |pat| <= |s| ==> (MatchFrom(s, pat, i, 0) <==> OccursAt(s, pat, i))
  {
    if i + |pat| <= |s| {
      MatchFromIff(s, pat, i, 0);
    }
  }

  /** `s.replace(pat, rep)` with a string pattern: only the first occurrence is replaced. */
  function ReplaceFirst(s: string, pat: string, rep: string): (r: string)
  {
    var k := FindFrom(s, pat, 0);
    if k <= |s| then s[..k] + rep + s[k + |pat|..] else s
  }

  /** `s.replace(/pat/g, rep)` for a literal pattern: every non-overlapping occurrence, left to right. */
  function ReplaceAll(s: string, pat: string, rep: string): string
    requires |pat| > 0
    decreases |s|
  {
    if |s| < |pat| then s
    else if s[..|pat|] == pat then rep + ReplaceAll(s[|pat|..], pat, rep)
    else [s[0]] + ReplaceAll(s[1..], pat, rep)
  }

  /** `replace` with a pattern that occurs: the first occurrence, at the least index holding one, is replaced. */
  lemma ReplaceFirstAt(s: string, pat: string, rep: string)
    requires Contains(s, pat)
    ensures var k := FindFrom(s, pat, 0);
      k + |pat| <= |s| && OccursAt(s, pat, k) && (forall j :: 0 <= j < k ==> !OccursAt(s, pat, j)) &&
      ReplaceFirst(s, pat, rep) == s[..k] + rep + s[k + |pat|..]
  {
    ContainsIff(s, pat);
    var j: nat :| OccursAt(s, pat, j);
  }

  /** A piece of a concatenation occurs in it. */
  lemma ContainsMiddle(a: string, b: string, c: string)
    ensures Contains(a + b + c, b)
  {
    assert (a + b + c)[|a|..|a| + |b|] == b;
    ContainsAt(a + b + c, b, |a|);
  }
}
