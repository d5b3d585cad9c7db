/**
 * The keyword tables of lib/synonyms.js, filled at load time from the
 * course catalogue: `keywordSynonyms` maps each code to its full name and
 * `synonymLookup` maps normalised phrases to codes. The catalogue file is
 * not part of this model; it is a parameter.
 */
module Synonyms {
  import opened Strings
  import opened Normalize
  import opened Registry

  /** A catalogue course: its code and its full name. */
  type Course = (string, string)

  /** The catalogue: categories in order, each with its courses in order. */
  type Catalog = seq<(string, seq<Course>)>

  /** All courses in the order the nested `forEach` visits them. */
  function Courses(catalog: Catalog): seq<Course> {
    if catalog == [] then [] else Courses(catalog[..|catalog| - 1]) + catalog[|catalog| - 1].1
  }

  lemma CoursesSnoc(catalog: Catalog, i: nat)
    requires i < |catalog|
    ensures Courses(catalog[..i + 1]) == Courses(catalog[..i]) + catalog[i].1
  {
    assert catalog[..i + 1][..i] == catalog[..i];
  }

  /** The hand-written phrases of lines 22-109, by code. */
  const CustomPhrases: seq<(string, seq<string>)> := [
    ("smsts", ["site management", "site manager course", "manager safety course", "s m s t s"]),
    ("sssts", ["site supervisor", "supervisor safety", "triple sts", "s s s t s"]),
    ("hsa", ["health and safety course", "basic health and safety", "awareness training"]),
    ("twc", ["temporary works coordination", "t w c", "temporary coordinator"]),
    ("tws", ["temporary works supervision", "t w s", "temporary supervisor"]),
    ("seats", ["environmental awareness", "seats course", "site environmental", "seats"]),
    ("iosh-working", ["iosh working", "working safely", "iosh basic"]),
    ("iosh-managing", ["iosh managing", "managing safely", "iosh advanced"]),
    ("nebosh-general", ["nebosh general", "general certificate", "nebosh level 3"]),
    ("nebosh-construction", ["nebosh construction", "construction certificate", "nebosh site safety"]),
    ("iema-foundation", ["environmental management", "environment course", "iema foundation"]),
    ("mhfa", ["mental health", "mental health first aid", "mental health course", "mental health course for june", "mental health training"]),
    ("eusr-water-am", ["water hygiene am", "morning water training", "water course morning"]),
    ("eusr-water-pm", ["water hygiene pm", "afternoon water training", "water course afternoon"])
  ]

  function PhrasesFrom(code: string, i: nat): seq<string>
    requires i <= |CustomPhrases|
    decreases |CustomPhrases| - i
  {
    if i == |CustomPhrases| then []
    else if CustomPhrases[i].0 == code then CustomPhrases[i].1
    else PhrasesFrom(code, i + 1)
  }

  /** The phrases registered for `code`; none for a code without a block. */
  function PhrasesFor(code: string): seq<string> {
    PhrasesFrom(code, 0)
  }

  function NormalizeAll(ps: seq<string>): (r: seq<string>)
    ensures |r| == |ps| && forall i :: 0 <= i < |ps| ==> r[i] == NormalizeText(ps[i])
  {
    seq(|ps|, i requires 0 <= i < |ps| => NormalizeText(ps[i]))
  }

  function Code(c: Course): string { c.0 }
  function FullName(c: Course): string { c.1 }
  function CodeKey(c: Course): seq<string> { [c.0] }

  /** The keys of lines 14-19: the code, the full name and its two co-ordinator spellings, all normalised. */
  function NameKeys(c: Course): seq<string> {
    [NormalizeText(c.0),
     NormalizeText(c.1),
     NormalizeText(ReplaceAll(c.1, "co-ordinator", "coordinator")),
     NormalizeText(ReplaceAll(c.1, "coordinator", "co-ordinator"))]
  }

  /** Every key one course writes into `synonymLookup`, in order; each maps to its code. */
  function LookupKeys(c: Course): seq<string> {
    NameKeys(c) + NormalizeAll(PhrasesFor(c.0))
  }

  /** `keywordSynonyms` after loading `catalog`. */
  function KeywordTable(catalog: Catalog): map<string, string> {
    Fill(Courses(catalog), CodeKey, FullName)
  }

  /** `synonymLookup` after loading `catalog`. */
  function LookupTable(catalog: Catalog): map<string, string> {
    Fill(Courses(catalog), LookupKeys, Code)
  }

  // ---------------------------------------------------------------------
  // What the loaded tables say

  /** `keywordSynonyms` has a key exactly for each code in the catalogue. */
  lemma KeywordCodes(catalog: Catalog, code: string)
    ensures code in KeywordTable(catalog) <==>
      exists i :: 0 <= i < |Courses(catalog)| && Courses(catalog)[i].0 == code
  {
    var cs := Courses(catalog);
    FillKeys(cs, CodeKey, FullName, code);
    assert forall i :: 0 <= i < |cs| ==> (code in CodeKey(cs[i]) <==> cs[i].0 == code);
  }

  /** `keywordSynonyms[code]` is the full name of the last course with that code. */
  lemma KeywordLastName(catalog: Catalog, i: nat)
    requires i < |Courses(catalog)|
    requires forall j :: i < j < |Courses(catalog)| ==> Courses(catalog)[j].0 != Courses(catalog)[i].0
    ensures Courses(catalog)[i].0 in KeywordTable(catalog)
    ensures KeywordTable(catalog)[Courses(catalog)[i].0] == Courses(catalog)[i].1
  {
    var cs := Courses(catalog);
    assert LastWriter(cs, CodeKey, i, cs[i].0);
    FillLast(cs, CodeKey, FullName, i, cs[i].0);
  }

  /** Every key one course writes is a normal form. */
  lemma CourseKeysNormal(c: Course, k: string)
    requires k in LookupKeys(c)
    ensures NormalizeText(k) == k
  {
    var named, added := NameKeys(c), NormalizeAll(PhrasesFor(c.0));
    if k in named {
      var x :| x in [c.0, c.1, ReplaceAll(c.1, "co-ordinator", "coordinator"), ReplaceAll(c.1, "coordinator", "co-ordinator")]
        && k == NormalizeText(x);
      NormalizeIdempotent(x);
    } else {
      assert k in added;
      var j :| 0 <= j < |added| && added[j] == k;
      NormalizeIdempotent(PhrasesFor(c.0)[j]);
    }
  }

  /** Every key of `synonymLookup` is a fixed point of `normalizeText`. */
  lemma LookupKeysNormal(catalog: Catalog, k: string)
    requires k in LookupTable(catalog)
    ensures NormalizeText(k) == k
  {
    var cs := Courses(catalog);
    FillKeys(cs, LookupKeys, Code, k);
    var i :| 0 <= i < |cs| && k in LookupKeys(cs[i]);
    CourseKeysNormal(cs[i], k);
  }

  /** Every value of `synonymLookup` is the code of the last catalogue course that wrote its key. */
  lemma LookupValues(catalog: Catalog, k: string)
    requires k in LookupTable(catalog)
    ensures exists i :: (0 <= i < |Courses(catalog)| && LastWriter(Courses(catalog), LookupKeys, i, k)
      && LookupTable(catalog)[k] == Courses(catalog)[i].0)
  {
    FillValue(Courses(catalog), LookupKeys, Code, k);
  }

  /** Later courses overwrite earlier ones: the last course that writes a key decides it. */
  lemma LookupLastWriter(catalog: Catalog, i: nat, k: string)
    requires i < |Courses(catalog)| && LastWriter(Courses(catalog), LookupKeys, i, k)
    ensures k in LookupTable(catalog) && LookupTable(catalog)[k] == Courses(catalog)[i].0
  {
    FillLast(Courses(catalog), LookupKeys, Code, i, k);
  }

  lemma CoordinatorLower()
    ensures Lower("co-ordinator") == "co-ordinator"
    ensures Lower("coordinator") == "coordinator"
  {
  }

  lemma HyphenatedLetters()
    ensures DeleteDisallowed("co-ordinator") == "coordinator"
  {
    KeepFromFixed("co-ordinator", 3);
    assert KeepFrom("co-ordinator", 2) == "ordinator";
  }

  lemma PlainLetters()
    ensures DeleteDisallowed("coordinator") == "coordinator"
  {
    KeepFromFixed("coordinator", 0);
  }

  /** Both spellings have the same letters. */
  lemma CoordinatorLetters()
    ensures DeleteDisallowed(Lower("co-ordinator")) == DeleteDisallowed(Lower("coordinator"))
  {
    CoordinatorLower();
    HyphenatedLetters();
    PlainLetters();
  }

  /** The co-ordinator/coordinator keys of lines 18-19 equal the normalised full name: they add no key. */
  lemma CoordinatorVariants(c: Course)
    ensures NameKeys(c)[2] == NameKeys(c)[1]
    ensures NameKeys(c)[3] == NameKeys(c)[1]
  {
    CoordinatorLetters();
    ReplaceKeepsNormal(c.1, "co-ordinator", "coordinator");
    ReplaceKeepsNormal(c.1, "coordinator", "co-ordinator");
  }

  /** Unless a later course writes the same key, a course's code and full name resolve to its code. */
  lemma CodeAndNameResolve(catalog: Catalog, i: nat)
    requires i < |Courses(catalog)|
    requires var cs := Courses(catalog);
      forall j :: i < j < |cs| ==> NormalizeText(cs[i].0) !in LookupKeys(cs[j]) && NormalizeText(cs[i].1) !in LookupKeys(cs[j])
    ensures var c := Courses(catalog)[i];
      NormalizeText(c.0) in LookupTable(catalog) && LookupTable(catalog)[NormalizeText(c.0)] == c.0 &&
      NormalizeText(c.1) in LookupTable(catalog) && LookupTable(catalog)[NormalizeText(c.1)] == c.0
  {
    var cs := Courses(catalog);
    assert NameKeys(cs[i])[0] == NormalizeText(cs[i].0) && NameKeys(cs[i])[1] == NormalizeText(cs[i].1);
    assert LookupKeys(cs[i])[0] == NormalizeText(cs[i].0) && LookupKeys(cs[i])[1] == NormalizeText(cs[i].1);
    LookupLastWriter(catalog, i, NormalizeText(cs[i].0));
    LookupLastWriter(catalog, i, NormalizeText(cs[i].1));
  }

  /** A hand-written phrase of a catalogue course's code resolves to that code unless a later course writes it too. */
  lemma PhraseResolves(catalog: Catalog, i: nat, p: string)
    requires i < |Courses(catalog)| && p in PhrasesFor(Courses(catalog)[i].0)
    requires var cs := Courses(catalog); forall j :: i < j < |cs| ==> NormalizeText(p) !in LookupKeys(cs[j])
    ensures NormalizeText(p) in LookupTable(catalog)
    ensures LookupTable(catalog)[NormalizeText(p)] == Courses(catalog)[i].0
  {
    var cs := Courses(catalog);
    var ps := PhrasesFor(cs[i].0);
    var j :| 0 <= j < |ps| && ps[j] == p;
    assert NormalizeAll(ps)[j] == NormalizeText(p);
    assert NormalizeText(p) in LookupKeys(cs[i]);
    LookupLastWriter(catalog, i, NormalizeText(p));
  }

  /** A key resolves to a code only if a catalogue course has that code: no phrase is registered for an absent code. */
  lemma ResolvesOnlyToCatalogCodes(catalog: Catalog, k: string)
    requires k in LookupTable(catalog)
    ensures exists i :: 0 <= i < |Courses(catalog)| && Courses(catalog)[i].0 == LookupTable(catalog)[k]
  {
    LookupValues(catalog, k);
  }

  lemma TripleStsPhrase()
    ensures "triple sts" in PhrasesFor("sssts")
    ensures NormalizeText("triple sts") == "triple sts"
  {
    FixedPoint("triple sts");
  }

  /** "triple sts" resolves to "sssts" once the catalogue lists "sssts" (and no later course writes "triple sts"). */
  lemma TripleSts(catalog: Catalog, i: nat)
    requires i < |Courses(catalog)| && Courses(catalog)[i].0 == "sssts"
    requires var cs := Courses(catalog); forall j :: i < j < |cs| ==> "triple sts" !in LookupKeys(cs[j])
    ensures "triple sts" in LookupTable(catalog) && LookupTable(catalog)["triple sts"] == "sssts"
  {
    var p := "triple sts";
    TripleStsPhrase();
    PhraseResolves(catalog, i, p);
  }

  lemma SpacedTwcPhrase()
    ensures "t w c" in PhrasesFor("twc")
    ensures NormalizeText("t w c") == "t w c"
  {
    FixedPoint("t w c");
  }

  /** "t w c" resolves to "twc" once the catalogue lists "twc" (and no later course writes "t w c"). */
  lemma SpacedTwc(catalog: Catalog, i: nat)
    requires i < |Courses(catalog)| && Courses(catalog)[i].0 == "twc"
    requires var cs := Courses(catalog); forall j :: i < j < |cs| ==> "t w c" !in LookupKeys(cs[j])
    ensures "t w c" in LookupTable(catalog) && LookupTable(catalog)["t w c"] == "twc"
  {
    var p := "t w c";
    SpacedTwcPhrase();
    PhraseResolves(catalog, i, p);
  }

  /** The two module-level dictionaries, filled in place. */
  class SynonymTables {
    var keywordSynonyms: map<string, string>
    var synonymLookup: map<string, string>

    /** The load-time loop over the catalogue (lines 9-111). */
    constructor (catalog: Catalog)
      ensures keywordSynonyms == KeywordTable(catalog)
      ensures synonymLookup == LookupTable(catalog)
    {
      keywordSynonyms := map[];
      synonymLookup := map[];
      new;
      var i := 0;
      while i < |catalog|
        invariant 0 <= i <= |catalog|
        invariant keywordSynonyms == KeywordTable(catalog[..i])
        invariant synonymLookup == LookupTable(catalog[..i])
      {
        RegisterCategory(catalog[i].1);
        CoursesSnoc(catalog, i);
        FillAppend(map[], Courses(catalog[..i]), catalog[i].1, CodeKey, FullName);
        FillAppend(map[], Courses(catalog[..i]), catalog[i].1, LookupKeys, Code);
        i := i + 1;
      }
      assert catalog[..i] == catalog;
    }

    /** The inner `forEach` over one category's courses (lines 10-110). */
    method RegisterCategory(courses: seq<Course>)
      modifies this
      ensures keywordSynonyms == FillFrom(old(keywordSynonyms), courses, CodeKey, FullName)
      ensures synonymLookup == FillFrom(old(synonymLookup), courses, LookupKeys, Code)
    {
      var j := 0;
      while j < |courses|
        invariant 0 <= j <= |courses|
        invariant keywordSynonyms == FillFrom(old(keywordSynonyms), courses[..j], CodeKey, FullName)
        invariant synonymLookup == FillFrom(old(synonymLookup), courses[..j], LookupKeys, Code)
      {
        var code, full := courses[j].0, courses[j].1;
        ghost var names, lookup := keywordSynonyms, synonymLookup;
        Register(code, full);
        assert courses[j] == (code, full);
        assert keywordSynonyms == FillFrom(old(keywordSynonyms), courses[..j + 1], CodeKey, FullName) by {
          FillPrefixStep(old(keywordSynonyms), courses, j, CodeKey, FullName);
          PutSnoc(names, [], code, full);
          assert CodeKey((code, full)) == [] + [code];
        }
        assert synonymLookup == FillFrom(old(synonymLookup), courses[..j + 1], LookupKeys, Code) by {
          FillPrefixStep(old(synonymLookup), courses, j, LookupKeys, Code);
        }
        j := j + 1;
      }
      assert courses[..j] == courses;
    }

    /** The body of the inner `forEach` for one course (lines 11-109). */
    method Register(code: string, full: string)
      modifies this
      ensures keywordSynonyms == old(keywordSynonyms)[code := full]
      ensures synonymLookup == Put(old(synonymLookup), LookupKeys((code, full)), code)
    {
      var keys := NameKeys((code, full));
      keywordSynonyms := keywordSynonyms[code := full];
      var normalizedFull := NormalizeText(full);
      synonymLookup := synonymLookup[NormalizeText(code) := code];
      synonymLookup := synonymLookup[normalizedFull := code];
      synonymLookup := synonymLookup[NormalizeText(ReplaceAll(full, "co-ordinator", "coordinator")) := code];
      synonymLookup := synonymLookup[NormalizeText(ReplaceAll(full, "coordinator", "co-ordinator")) := code];
      assert synonymLookup == Put(old(synonymLookup), keys[..4], code) by {
        PutSnoc(old(synonymLookup), [], keys[0], code);
        PutSnoc(old(synonymLookup), keys[..1], keys[1], code);
        PutSnoc(old(synonymLookup), keys[..2], keys[2], code);
        PutSnoc(old(synonymLookup), keys[..3], keys[3], code);
        assert keys[..1] == [] + [keys[0]];
        assert keys[..2] == keys[..1] + [keys[1]];
        assert keys[..3] == keys[..2] + [keys[2]];
        assert keys[..4] == keys[..3] + [keys[3]];
      }
      assert keys[..4] == keys;
      ghost var named := synonymLookup;
      var phrases := PhrasesFor(code);
      RegisterPhrases(code, phrases);
      ghost var added := NormalizeAll(phrases);
      assert synonymLookup == Put(named, added, code);
      PutAppend(old(synonymLookup), keys, added, code);
      assert LookupKeys((code, full)) == keys + added;
    }

    /** The hand-written block for `code` (lines 22-109): each phrase, normalised, maps to `code`. */
    method RegisterPhrases(code: string, phrases: seq<string>)
      modifies this
      ensures keywordSynonyms == old(keywordSynonyms)
      ensures synonymLookup == Put(old(synonymLookup), NormalizeAll(phrases), code)
    {
      var keys := NormalizeAll(phrases);
      var k := 0;
      while k < |phrases|
        invariant 0 <= k <= |phrases|
        invariant keywordSynonyms == old(keywordSynonyms)
        invariant synonymLookup == Put(old(synonymLookup), keys[..k], code)
      {
        synonymLookup := synonymLookup[NormalizeText(phrases[k]) := code];
        PutSnoc(old(synonymLookup), keys[..k], keys[k], code);
        assert keys[..k + 1] == keys[..k] + [keys[k]];
        k := k + 1;
      }
      assert keys[..k] == keys;
    }
  }
}
