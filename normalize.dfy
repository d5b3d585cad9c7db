/**
 * `normalizeText` of lib/utils/normalize.js: lower-case, delete every
 * character outside `[a-z0-9\s]`, collapse each run of whitespace into one
 * space, trim. `null`/`undefined` reach it as the empty string (`str || ""`).
 */
module Normalize {
  import opened Strings

  predicate IsLowerAlnum(c: char) {
    'a' <= c <= 'z' || '0' <= c <= '9'
  }

  /** The characters `[a-z0-9\s]` that the deletion step keeps. */
  predicate Allowed(c: char) {
    IsLowerAlnum(c) || IsSpace(c)
  }

  /** The output alphabet of `normalizeText`: a-z, 0-9 and the plain space. */
  predicate NormChar(c: char) {
    IsLowerAlnum(c) || c == ' '
  }

  predicate NoDoubleSpace(t: string) {
    forall k :: 0 <= k < |t| - 1 ==> !(t[k] == ' ' && t[k + 1] == ' ')
  }

  /** The strings `normalizeText` can return. */
  predicate Canonical(t: string) {
    && (forall k :: 0 <= k < |t| ==> NormChar(t[k]))
    && NoEdgeSpace(t)
    && NoDoubleSpace(t)
  }

  // ---------------------------------------------------------------------
  // Step 2: `.replace(/[^a-z0-9\s]/g, "")`

  function KeepFrom(s: string, i: nat): string
    requires i <= |s|
    decreases |s| - i
  {
    if i == |s| then [] else if Allowed(s[i]) then [s[i]] + KeepFrom(s, i + 1) else KeepFrom(s, i + 1)
  }

  function DeleteDisallowed(s: string): string {
    KeepFrom(s, 0)
  }

  lemma {:induction false} KeepShift(x: string, y: string, j: nat)
    requires j <= |y|
    ensures KeepFrom(x + y, |x| + j) == KeepFrom(y, j)
    decreases |y| - j
  {
    if j < |y| {
      KeepShift(x, y, j + 1);
    }
  }

  lemma {:induction false} KeepConcatFrom(x: string, y: string, i: nat)
    requires i <= |x|
    ensures KeepFrom(x + y, i) == KeepFrom(x, i) + KeepFrom(y, 0)
    decreases |x| - i
  {
    if i == |x| {
      KeepShift(x, y, 0);
    } else {
      KeepConcatFrom(x, y, i + 1);
    }
  }

  lemma KeepConcat(x: string, y: string)
    ensures DeleteDisallowed(x + y) == DeleteDisallowed(x) + DeleteDisallowed(y)
  {
    KeepConcatFrom(x, y, 0);
  }

  lemma {:induction false} KeepFromAllowed(s: string, i: nat)
    requires i <= |s|
    ensures forall k :: 0 <= k < |KeepFrom(s, i)| ==> Allowed(KeepFrom(s, i)[k])
    decreases |s| - i
  {
    if i < |s| {
      KeepFromAllowed(s, i + 1);
    }
  }

  lemma {:induction false} KeepFromFixed(s: string, i: nat)
    requires i <= |s|
    requires forall k :: i <= k < |s| ==> Allowed(s[k])
    ensures KeepFrom(s, i) == s[i..]
    decreases |s| - i
  {
    if i < |s| {
      KeepFromFixed(s, i + 1);
      assert s[i..] == [s[i]] + s[i + 1..];
    }
  }

  // ---------------------------------------------------------------------
  // Step 3: `.replace(/\s+/g, " ")`, read left to right; `inRun` says
  // whether the previous character was whitespace.

  function CollapseFrom(s: string, i: nat, inRun: bool): string
    requires i <= |s|
    decreases |s| - i
  {
    if i == |s| then []
    else if IsSpace(s[i]) then (if inRun then [] else [' ']) + CollapseFrom(s, i + 1, true)
    else [s[i]] + CollapseFrom(s, i + 1, false)
  }

  function CollapseSpaces(s: string): string {
    CollapseFrom(s, 0, false)
  }

  /** Whether the reader is inside a whitespace run after reading `x[i..]` from state `inRun`. */
  function EndsInRun(x: string, i: nat, inRun: bool): bool
    requires i <= |x|
  {
    if i == |x| then inRun else IsSpace(x[|x| - 1])
  }

  lemma {:induction false} CollapseShift(x: string, y: string, j: nat, inRun: bool)
    requires j <= |y|
    ensures CollapseFrom(x + y, |x| + j, inRun) == CollapseFrom(y, j, inRun)
    decreases |y| - j
  {
    if j < |y| {
      assert (x + y)[|x| + j] == y[j];
      CollapseShift(x, y, j + 1, true);
      CollapseShift(x, y, j + 1, false);
    } else {
      assert |x + y| == |x| + j;
    }
  }

  lemma {:induction false} CollapseConcatFrom(x: string, y: string, i: nat, inRun: bool)
    requires i <= |x|
    ensures CollapseFrom(x + y, i, inRun) == CollapseFrom(x, i, inRun) + CollapseFrom(y, 0, EndsInRun(x, i, inRun))
    decreases |x| - i
  {
    if i == |x| {
      CollapseShift(x, y, 0, inRun);
    } else {
      CollapseConcatFrom(x, y, i + 1, IsSpace(x[i]));
    }
  }

  /** A non-empty whitespace run read from any state leaves the reader in a run, having emitted at most one space. */
  lemma {:induction false} CollapseRun(w: string, i: nat, inRun: bool)
    requires i < |w|
    requires forall k :: 0 <= k < |w| ==> IsSpace(w[k])
    ensures CollapseFrom(w, i, inRun) == (if inRun then [] else [' '])
    decreases |w| - i
  {
    if i + 1 < |w| {
      CollapseRun(w, i + 1, true);
    }
  }

  predicate NormCharsOf(t: string) {
    forall k :: 0 <= k < |t| ==> NormChar(t[k])
  }

  lemma {:induction false} CollapseFromShape(s: string, i: nat, inRun: bool)
    requires i <= |s|
    requires forall k :: i <= k < |s| ==> Allowed(s[k])
    ensures var r := CollapseFrom(s, i, inRun);
      NormCharsOf(r) && NoDoubleSpace(r) && (inRun && |r| > 0 ==> r[0] != ' ')
    decreases |s| - i
  {
    if i < |s| {
      CollapseFromShape(s, i + 1, IsSpace(s[i]));
    }
  }

  lemma {:induction false} CollapseFromFixed(t: string, i: nat, inRun: bool)
    requires i <= |t|
    requires forall k :: i <= k < |t| ==> NormChar(t[k])
    requires NoDoubleSpace(t)
    requires inRun && i < |t| ==> t[i] != ' '
    ensures CollapseFrom(t, i, inRun) == t[i..]
    decreases |t| - i
  {
    if i < |t| {
      CollapseFromFixed(t, i + 1, t[i] == ' ');
      assert t[i..] == [t[i]] + t[i + 1..];
    }
  }

  // ---------------------------------------------------------------------
  // The whole chain

  /** `normalizeText(str)` for a string argument. */
  function NormalizeText(s: string): string {
    Trim(CollapseSpaces(DeleteDisallowed(Lower(s))))
  }

  /** Every result of `normalizeText` is canonical. */
  lemma NormalizeCanonical(s: string)
    ensures Canonical(NormalizeText(s))
  {
    var kept := DeleteDisallowed(Lower(s));
    KeepFromAllowed(Lower(s), 0);
    CollapseFromShape(kept, 0, false);
    TrimSlice(CollapseSpaces(kept));
  }

  /** A canonical string is left unchanged by every step of the chain. */
  lemma CanonicalFixed(t: string)
    requires Canonical(t)
    ensures NormalizeText(t) == t
  {
    LowerFixed(t);
    KeepFromFixed(t, 0);
    CollapseFromFixed(t, 0, false);
    TrimFixed(t);
  }

  /** `normalizeText` is idempotent. */
  lemma NormalizeIdempotent(s: string)
    ensures NormalizeText(NormalizeText(s)) == NormalizeText(s)
  {
    NormalizeCanonical(s);
    CanonicalFixed(NormalizeText(s));
  }

  /** The result uses only a-z, 0-9 and the plain space. */
  lemma NormalizeAlphabet(s: string)
    ensures forall k :: 0 <= k < |NormalizeText(s)| ==>
      'a' <= NormalizeText(s)[k] <= 'z' || '0' <= NormalizeText(s)[k] <= '9' || NormalizeText(s)[k] == ' '
  {
    NormalizeCanonical(s);
  }

  /** No leading or trailing space and never two spaces in a row. */
  lemma NormalizeSpacing(s: string)
    ensures var r := NormalizeText(s);
      (|r| > 0 ==> r[0] != ' ' && r[|r| - 1] != ' ') &&
      forall k :: 0 <= k < |r| - 1 ==> !(r[k] == ' ' && r[k + 1] == ' ')
  {
    NormalizeCanonical(s);
  }

  /** Upper and lower case normalise alike. */
  lemma NormalizeCaseInsensitive(s: string)
    ensures NormalizeText(Lower(s)) == NormalizeText(s)
  {
    assert Lower(Lower(s)) == Lower(s);
  }

  /** Any run of whitespace normalises as one plain space would. */
  lemma NormalizeWhitespaceRun(a: string, w: string, b: string)
    requires |w| > 0 && forall k :: 0 <= k < |w| ==> IsSpace(w[k])
    ensures NormalizeText(a + w + b) == NormalizeText(a + " " + b)
  {
    var la, lb := Lower(a), Lower(b);
    LowerConcat(a + w, b);
    LowerConcat(a, w);
    LowerConcat(a + " ", b);
    LowerConcat(a, " ");
    LowerFixed(w);
    assert Lower(" ") == " ";
    KeepConcat(la + w, lb);
    KeepConcat(la, w);
    KeepConcat(la + " ", lb);
    KeepConcat(la, " ");
    KeepFromFixed(w, 0);
    KeepFromFixed(" ", 0);
    var ka, kb := DeleteDisallowed(la), DeleteDisallowed(lb);
    CollapseConcatFrom(ka + w, kb, 0, false);
    CollapseConcatFrom(ka, w, 0, false);
    CollapseConcatFrom(ka + " ", kb, 0, false);
    CollapseConcatFrom(ka, " ", 0, false);
    var e := EndsInRun(ka, 0, false);
    CollapseRun(w, 0, e);
    CollapseRun(" ", 0, e);
  }

  lemma NormalizeEmpty()
    ensures NormalizeText("") == ""
  {
  }

  /** A character outside `[a-z0-9\s]` (after lower-casing) is deleted without leaving a space behind. */
  lemma NormalizeDeletes(a: string, c: char, b: string)
    requires !Allowed(LowerChar(c))
    ensures NormalizeText(a + [c] + b) == NormalizeText(a + b)
  {
    LowerConcat(a + [c], b);
    LowerConcat(a, [c]);
    LowerConcat(a, b);
    var la, lb := Lower(a), Lower(b);
    KeepConcat(la + [LowerChar(c)], lb);
    KeepConcat(la, [LowerChar(c)]);
    KeepConcat(la, lb);
    assert Lower([c]) == [LowerChar(c)];
    assert KeepFrom([LowerChar(c)], 1) == [];
    assert DeleteDisallowed([LowerChar(c)]) == [];
    assert DeleteDisallowed(Lower(a + [c] + b)) == DeleteDisallowed(Lower(a + b));
  }

  /**
   * Replacing every occurrence of `pat` (`s.replace(/pat/g, rep)`) by text
   * with the same letters and digits keeps the letters and digits of `s`.
   */
  lemma {:induction false} ReplaceKeepsLetters(s: string, pat: string, rep: string)
    requires |pat| > 0
    requires DeleteDisallowed(Lower(pat)) == DeleteDisallowed(Lower(rep))
    ensures DeleteDisallowed(Lower(ReplaceAll(s, pat, rep))) == DeleteDisallowed(Lower(s))
    decreases |s|
  {
    if |s| >= |pat| {
      if s[..|pat|] == pat {
        var rest := s[|pat|..];
        var r := ReplaceAll(rest, pat, rep);
        ReplaceKeepsLetters(rest, pat, rep);
        LowerConcat(rep, r);
        KeepConcat(Lower(rep), Lower(r));
        assert s == pat + rest;
        LowerConcat(pat, rest);
        KeepConcat(Lower(pat), Lower(rest));
      } else {
        var rest := s[1..];
        var r := ReplaceAll(rest, pat, rep);
        ReplaceKeepsLetters(rest, pat, rep);
        LowerConcat([s[0]], r);
        KeepConcat(Lower([s[0]]), Lower(r));
        assert s == [s[0]] + rest;
        LowerConcat([s[0]], rest);
        KeepConcat(Lower([s[0]]), Lower(rest));
      }
    }
  }

  /** Such a replacement leaves the normal form unchanged. */
  lemma ReplaceKeepsNormal(s: string, pat: string, rep: string)
    requires |pat| > 0
    requires DeleteDisallowed(Lower(pat)) == DeleteDisallowed(Lower(rep))
    ensures NormalizeText(ReplaceAll(s, pat, rep)) == NormalizeText(s)
  {
    ReplaceKeepsLetters(s, pat, rep);
  }

  /** Character-by-character check of `Canonical`, which the verifier can run on literals. */
  predicate CanonicalFrom(t: string, i: nat)
    requires i <= |t|
    decreases |t| - i
  {
    i == |t| ||
    (NormChar(t[i]) && (t[i] == ' ' ==> 0 < i < |t| - 1 && t[i + 1] != ' ') && CanonicalFrom(t, i + 1))
  }

  predicate GoodAt(t: string, k: nat)
    requires k < |t|
  {
    NormChar(t[k]) && (t[k] == ' ' ==> 0 < k < |t| - 1 && t[k + 1] != ' ')
  }

  lemma {:induction false} CanonicalFromSound(t: string, i: nat)
    requires i <= |t| && CanonicalFrom(t, i)
    ensures forall k :: i <= k < |t| ==> GoodAt(t, k)
    decreases |t| - i
  {
    if i < |t| {
      assert GoodAt(t, i);
      CanonicalFromSound(t, i + 1);
    }
  }

  lemma CheckCanonical(t: string)
    requires CanonicalFrom(t, 0)
    ensures Canonical(t)
  {
    CanonicalFromSound(t, 0);
    if |t| > 0 {
      assert GoodAt(t, 0) && GoodAt(t, |t| - 1);
    }
    forall k | 0 <= k < |t| ensures NormChar(t[k]) {
      assert GoodAt(t, k);
    }
    forall k | 0 <= k < |t| - 1 ensures !(t[k] == ' ' && t[k + 1] == ' ') {
      assert GoodAt(t, k);
    }
  }

  /** A string that passes the character check is its own normal form. */
  lemma FixedPoint(t: string)
    requires CanonicalFrom(t, 0)
    ensures NormalizeText(t) == t
  {
    CheckCanonical(t);
    CanonicalFixed(t);
  }

  // Worked examples. The verifier evaluates each literal fact in a lemma of
  // its own; the example lemmas only chain them.

  lemma CoordinatorDeletion()
    ensures NormalizeText("co-ordinator") == NormalizeText("coordinator")
  {
    NormalizeDeletes("co", '-', "ordinator");
    assert "co" + ['-'] + "ordinator" == "co-ordinator";
    assert "co" + "ordinator" == "coordinator";
  }

  lemma CoordinatorFixed()
    ensures NormalizeText("coordinator") == "coordinator"
  {
    var t := "coordinator";
    // The character check, run from the end one position at a time.
    assert CanonicalFrom(t, 10);
    assert CanonicalFrom(t, 9);
    assert CanonicalFrom(t, 8);
    assert CanonicalFrom(t, 7);
    assert CanonicalFrom(t, 6);
    assert CanonicalFrom(t, 5);
    assert CanonicalFrom(t, 4);
    assert CanonicalFrom(t, 3);
    assert CanonicalFrom(t, 2);
    assert CanonicalFrom(t, 1);
    assert CanonicalFrom(t, 0);
    FixedPoint(t);
  }

  /** "co-ordinator" loses its hyphen. */
  lemma NormalizeCoordinator()
    ensures NormalizeText("co-ordinator") == "coordinator"
  {
    CoordinatorDeletion();
    CoordinatorFixed();
  }

  lemma NeboshLower()
    ensures Lower("NEBOSH-General") == "nebosh-general"
  {
  }

  lemma NeboshCase()
    ensures NormalizeText("NEBOSH-General") == NormalizeText("nebosh-general")
  {
    NeboshLower();
    NormalizeCaseInsensitive("NEBOSH-General");
  }

  lemma NeboshDeletion()
    ensures NormalizeText("nebosh-general") == NormalizeText("neboshgeneral")
  {
    NormalizeDeletes("nebosh", '-', "general");
    assert "nebosh" + ['-'] + "general" == "nebosh-general";
    assert "nebosh" + "general" == "neboshgeneral";
  }

  lemma NeboshFixed()
    ensures NormalizeText("neboshgeneral") == "neboshgeneral"
  {
    var t := "neboshgeneral";
    // The character check, run from the end one position at a time.
    assert CanonicalFrom(t, 12);
    assert CanonicalFrom(t, 11);
    assert CanonicalFrom(t, 10);
    assert CanonicalFrom(t, 9);
    assert CanonicalFrom(t, 8);
    assert CanonicalFrom(t, 7);
    assert CanonicalFrom(t, 6);
    assert CanonicalFrom(t, 5);
    assert CanonicalFrom(t, 4);
    assert CanonicalFrom(t, 3);
    assert CanonicalFrom(t, 2);
    assert CanonicalFrom(t, 1);
    assert CanonicalFrom(t, 0);
    FixedPoint(t);
  }

  lemma NeboshSpacedFixed()
    ensures NormalizeText("nebosh general") == "nebosh general"
  {
    var t := "nebosh general";
    // The character check, run from the end one position at a time.
    assert CanonicalFrom(t, 13);
    assert CanonicalFrom(t, 12);
    assert CanonicalFrom(t, 11);
    assert CanonicalFrom(t, 10);
    assert CanonicalFrom(t, 9);
    assert CanonicalFrom(t, 8);
    assert CanonicalFrom(t, 7);
    assert CanonicalFrom(t, 6);
    assert CanonicalFrom(t, 5);
    assert CanonicalFrom(t, 4);
    assert CanonicalFrom(t, 3);
    assert CanonicalFrom(t, 2);
    assert CanonicalFrom(t, 1);
    assert CanonicalFrom(t, 0);
    FixedPoint(t);
  }

  /** "NEBOSH-General" becomes one word, while "nebosh general" keeps its space. */
  lemma NormalizeNebosh()
    ensures NormalizeText("NEBOSH-General") == "neboshgeneral"
    ensures NormalizeText("nebosh general") == "nebosh general"
  {
    NeboshCase();
    NeboshDeletion();
    NeboshFixed();
    NeboshSpacedFixed();
  }

  lemma TabLower()
    ensures Lower("Mental\t Health") == "mental\t health"
  {
  }

  lemma TabCase()
    ensures NormalizeText("Mental\t Health") == NormalizeText("mental\t health")
  {
    TabLower();
    NormalizeCaseInsensitive("Mental\t Health");
  }

  lemma TabRun()
    ensures NormalizeText("mental\t health") == NormalizeText("mental health")
  {
    NormalizeWhitespaceRun("mental", "\t ", "health");
    assert "mental" + "\t " + "health" == "mental\t health";
    assert "mental" + " " + "health" == "mental health";
  }

  lemma MentalHealthFixed()
    ensures NormalizeText("mental health") == "mental health"
  {
    var t := "mental health";
    // The character check, run from the end one position at a time.
    assert CanonicalFrom(t, 12);
    assert CanonicalFrom(t, 11);
    assert CanonicalFrom(t, 10);
    assert CanonicalFrom(t, 9);
    assert CanonicalFrom(t, 8);
    assert CanonicalFrom(t, 7);
    assert CanonicalFrom(t, 6);
    assert CanonicalFrom(t, 5);
    assert CanonicalFrom(t, 4);
    assert CanonicalFrom(t, 3);
    assert CanonicalFrom(t, 2);
    assert CanonicalFrom(t, 1);
    assert CanonicalFrom(t, 0);
    FixedPoint(t);
  }

  /** A tab followed by a space becomes one space, and case is folded. */
  lemma NormalizeTabExample()
    ensures NormalizeText("Mental\t Health") == "mental health"
  {
    TabCase();
    TabRun();
    MentalHealthFixed();
  }
}
