/**
 * lib/search.js: the lookup table it fills at load time and the newer
 * `searchCourses`, which resolves the keyword through that table, keeps the
 * products that pass every filter and the date cut-off, and writes
 * `_meta` into each product it keeps. Its `extractLocation` (lines 33-36)
 * and `parseDate` (lines 38-54) are the same text as lib/utils/location.js
 * and lib/utils/date.js and are modelled by `Location` and `Dates`.
 */
module Search {
  import opened Wrappers
  import opened Strings
  import opened Registry
  import opened Location
  import opened Dates
  import opened Numbers
  import opened Courses
  import opened CourseFilters

  /** An (abbreviation, full name) pair of `keywordSynonyms`, in declaration order. */
  type Entry = (string, string)

  const KeywordSynonyms: seq<Entry> := [
    ("smsts", "Site Management Safety Training Scheme"),
    ("sssts", "Site Supervisors Safety Training Scheme"),
    ("twc", "Temporary Works Coordinator"),
    ("tws", "Temporary Works Supervisor"),
    ("hsa", "Health and Safety Awareness"),
    ("nebosh-general", "NEBOSH National General Certificate in Occupational Health and Safety"),
    ("nebosh-construction", "NEBOSH Health & Safety Management for Construction Certificate")]

  function Abbr(e: Entry): string { e.0 }
  function Full(e: Entry): string { e.1 }
  function AbbrKey(e: Entry): seq<string> { [e.0] }

  /** The phrases added by hand for the two NEBOSH abbreviations (lines 22-29). */
  function ExtraKeys(abbr: string): seq<string> {
    if abbr == "nebosh-general" then ["nebosh general", "neboshgeneral"]
    else if abbr == "nebosh-construction" then ["nebosh construction", "neboshconstruction"]
    else []
  }

  /** The keys one entry writes, in order: the lower-cased abbreviation, the lower-cased trimmed full name, the extras. */
  function EntryKeys(e: Entry): seq<string> {
    [Lower(e.0), Trim(Lower(e.1))] + ExtraKeys(e.0)
  }

  /** `keywordSynonyms` read as a dictionary. */
  function KeywordMap(table: seq<Entry>): map<string, string> {
    Fill(table, AbbrKey, Full)
  }

  /** The `synonymLookup` the load-time `forEach` leaves behind. */
  function Lookup(table: seq<Entry>): map<string, string> {
    Fill(table, EntryKeys, Abbr)
  }

  /** Every entry has a non-empty full name and writes only non-empty keys. */
  predicate WellFormed(table: seq<Entry>) {
    forall i :: 0 <= i < |table| ==> table[i].1 != "" && forall k :: k in EntryKeys(table[i]) ==> k != ""
  }

  /** What the table resolves to is an abbreviation with a full name, written by the last entry holding the key. */
  lemma LookupValue(table: seq<Entry>, k: string)
    requires k in Lookup(table)
    ensures Lookup(table)[k] in KeywordMap(table)
    ensures exists i :: (0 <= i < |table| && LastWriter(table, EntryKeys, i, k) && k in EntryKeys(table[i])
      && Lookup(table)[k] == table[i].0)
  {
    FillValue(table, EntryKeys, Abbr, k);
    var i :| 0 <= i < |table| && LastWriter(table, EntryKeys, i, k) && Lookup(table)[k] == Abbr(table[i]);
    FillKeys(table, AbbrKey, Full, table[i].0);
    assert table[i].0 in AbbrKey(table[i]);
  }

  /** In a well-formed table, keys and full names are non-empty. */
  lemma WellFormedLookup(table: seq<Entry>, k: string)
    requires k in Lookup(table)
    ensures Lookup(table)[k] in KeywordMap(table)
    ensures WellFormed(table) ==> k != "" && KeywordMap(table)[Lookup(table)[k]] != ""
  {
    FillKeys(table, EntryKeys, Abbr, k);
    LookupValue(table, k);
    FillValue(table, AbbrKey, Full, Lookup(table)[k]);
  }

  // ---------------------------------------------------------------------
  // The search

  /** A product object; `_meta` is the only field the search writes. */
  class Product {
    const record: CourseRecord
    var meta: Option<CourseMeta>

    constructor (record: CourseRecord)
      ensures this.record == record && meta.None?
    {
      this.record := record;
      meta := None;
    }
  }

  /** The parameters of `searchCourses` after the product list. */
  datatype Query = Query(
    keyword: string,
    month: Option<string>,
    requireSpaces: bool,
    location: Option<string>,
    typeFilter: Option<string>)

  /** A resolved keyword: the trimmed lower-cased input, its abbreviation, and the lower-cased full name. */
  datatype Resolved = Resolved(input: string, key: string, full: string)

  /**
   * Lines 58-62: the input must be a key of the table whose value is
   * truthy; the full name of that abbreviation, lower-cased, is the
   * resolved keyword.
   */
  function Resolve(table: seq<Entry>, keyword: string): (r: Option<Resolved>)
    ensures r.Some? <==> Trim(Lower(keyword)) in Lookup(table) && Lookup(table)[Trim(Lower(keyword))] != ""
    ensures r.Some? ==> r.value.input == Trim(Lower(keyword)) && r.value.key == Lookup(table)[r.value.input]
    ensures r.Some? && WellFormed(table) ==> r.value.input != "" && r.value.key != "" && r.value.full != ""
  {
    var input := Trim(Lower(keyword));
    if input !in Lookup(table) || Lookup(table)[input] == "" then None
    else
      var key := Lookup(table)[input];
      LookupValue(table, input);
      WellFormedLookup(table, input);
      Some(Resolved(input, key, Lower(KeywordMap(table)[key])))
  }

  /**
   * Lines 72-81: the name contains the resolved full name, the
   * abbreviation or the raw input, or it names the NEBOSH family together
   * with the qualifier of the abbreviation. (`resolvedKeyword` is lower-case
   * already, so the second lower-casing at line 73 changes nothing.)
   */
  predicate KeywordMatch(name: string, r: Resolved) {
    Contains(name, r.full) || Contains(name, Lower(r.key)) || Contains(name, r.input)
    || (r.key == "nebosh-general" && Contains(name, "nebosh") && Contains(name, "general"))
    || (r.key == "nebosh-construction" && Contains(name, "nebosh") && Contains(name, "construction"))
  }

  /** Line 86: a truthy `typeFilter` must equal the derived type. */
  predicate TypeOk(typeFilter: Option<string>, t: CourseType) {
    Falsy(typeFilter) || TypeName(t) == typeFilter.value
  }

  /** Lines 103-105: the record has started or ended before today. */
  predicate Expired(start: Option<Day>, end: Option<Day>, today: Day) {
    (start.Some? && start.value < today && (end.None? || end.value < today)) || (end.Some? && end.value < today)
  }

  /** The cut-off in plain terms: the end date decides when it parses; otherwise the start date does. */
  lemma ExpiredIff(start: Option<Day>, end: Option<Day>, today: Day)
    ensures Expired(start, end, today) <==>
      (end.Some? && end.value < today) || (end.None? && start.Some? && start.value < today)
  {
  }

  /** Every check of the filter callback, in the order of lines 84-108. */
  predicate Accepts(p: CourseRecord, q: Query, r: Resolved, today: Day, parse: string -> Option<Day>) {
    var name := LowerName(p);
    KeywordMatch(name, r)
    && TypeOk(q.typeFilter, TypeOf(p))
    && SeatsOk(q.requireSpaces, p.availableSpaces)
    && MonthOk(OptionalLower(q.month), p.startDate)
    && LocationOk(OptionalLower(q.location), name)
    && !Expired(ParseDate(p.startDate, parse), ParseDate(p.endDate, parse), today)
  }

  /** A product the search keeps: the keyword resolved and every check passed. */
  predicate Kept(p: CourseRecord, q: Query, r: Option<Resolved>, today: Day, parse: string -> Option<Day>) {
    r.Some? && Accepts(p, q, r.value, today, parse)
  }

  /** With a non-empty resolution, a kept product has a non-empty name, so `extractLocation` cannot fail on it. */
  lemma KeptNamed(p: CourseRecord, q: Query, r: Resolved, today: Day, parse: string -> Option<Day>)
    requires r.input != "" && r.key != "" && r.full != ""
    requires Accepts(p, q, r, today, parse)
    ensures p.name.Some? && p.name.value != ""
  {
    if p.name.None? || p.name.value == "" {
      assert LowerName(p) == "";
      NotContainedInEmpty(r.full);
      NotContainedInEmpty(Lower(r.key));
      NotContainedInEmpty(r.input);
      NotContainedInEmpty("nebosh");
    }
  }

  /** Lines 113-125: the meta of a kept product. */
  function SearchMeta(p: CourseRecord, today: Day, parse: string -> Option<Day>): CourseMeta
    requires p.name.Some?
  {
    MetaOf(p, p.name.value, ParseDate(p.startDate, parse), ParseDate(p.endDate, parse), today)
  }

  /** The `_meta` written by the search is exactly the record `buildMeta` derives. */
  lemma SearchMetaIsBuildMeta(p: CourseRecord, today: Day, parse: string -> Option<Day>)
    requires p.name.Some?
    ensures BuildMeta(p, today, parse) == Some(SearchMeta(p, today, parse))
  {
  }

  /** `allProducts.filter(…)` over the records. */
  function Selected(ps: seq<Product>, q: Query, r: Option<Resolved>, today: Day, parse: string -> Option<Day>): seq<Product> {
    if ps == [] then []
    else
      var rest := Selected(ps[..|ps| - 1], q, r, today, parse);
      if Kept(ps[|ps| - 1].record, q, r, today, parse) then rest + [ps[|ps| - 1]] else rest
  }

  /** Filtering distributes over concatenation: the result keeps the input's order. */
  lemma {:induction false} SelectedAppend(a: seq<Product>, b: seq<Product>, q: Query, r: Option<Resolved>, today: Day, parse: string -> Option<Day>)
    ensures Selected(a + b, q, r, today, parse) == Selected(a, q, r, today, parse) + Selected(b, q, r, today, parse)
    decreases |b|
  {
    if b != [] {
      assert (a + b)[..|a + b| - 1] == a + b[..|b| - 1];
      SelectedAppend(a, b[..|b| - 1], q, r, today, parse);
    } else {
      assert a + b == a;
    }
  }

  /** A product is in the result exactly when it is in the input and kept. */
  lemma {:induction false} SelectedMembers(ps: seq<Product>, q: Query, r: Option<Resolved>, today: Day, parse: string -> Option<Day>, p: Product)
    ensures p in Selected(ps, q, r, today, parse) <==> p in ps && Kept(p.record, q, r, today, parse)
    decreases |ps|
  {
    if ps != [] {
      SelectedMembers(ps[..|ps| - 1], q, r, today, parse, p);
      assert ps == ps[..|ps| - 1] + [ps[|ps| - 1]];
    }
  }

  lemma SelectedStep(ps: seq<Product>, i: nat, q: Query, r: Option<Resolved>, today: Day, parse: string -> Option<Day>)
    requires i < |ps|
    ensures Selected(ps[..i + 1], q, r, today, parse) ==
      Selected(ps[..i], q, r, today, parse) + if Kept(ps[i].record, q, r, today, parse) then [ps[i]] else []
  {
    assert ps[..i + 1][..i] == ps[..i];
  }

  /** The result is never longer than the input. */
  lemma {:induction false} SelectedShorter(ps: seq<Product>, q: Query, r: Option<Resolved>, today: Day, parse: string -> Option<Day>)
    ensures |Selected(ps, q, r, today, parse)| <= |ps|
    decreases |ps|
  {
    if ps != [] {
      SelectedShorter(ps[..|ps| - 1], q, r, today, parse);
    }
  }

  /** An unresolved keyword keeps nothing (line 60). */
  lemma {:induction false} UnresolvedEmpty(ps: seq<Product>, q: Query, today: Day, parse: string -> Option<Day>)
    ensures Selected(ps, q, None, today, parse) == []
    decreases |ps|
  {
    if ps != [] {
      UnresolvedEmpty(ps[..|ps| - 1], q, today, parse);
    }
  }

  /** The `searchCourses` module: its lookup table is filled in place when the module loads. */
  class SearchModule {
    const keywordSynonyms: seq<Entry>
    var synonymLookup: map<string, string>

    predicate Valid()
      reads this
    {
      WellFormed(keywordSynonyms) && synonymLookup == Lookup(keywordSynonyms)
    }

    /** Lines 15-30. */
    constructor ()
      ensures keywordSynonyms == KeywordSynonyms && Valid()
    {
      keywordSynonyms := KeywordSynonyms;
      synonymLookup := map[];
      new;
      var i := 0;
      while i < |keywordSynonyms|
        invariant 0 <= i <= |keywordSynonyms|
        invariant keywordSynonyms == KeywordSynonyms
        invariant synonymLookup == Lookup(keywordSynonyms[..i])
      {
        var abbr, full := keywordSynonyms[i].0, keywordSynonyms[i].1;
        ghost var before := synonymLookup;
        var normFull := Trim(Lower(full));
        synonymLookup := synonymLookup[Lower(abbr) := abbr];
        synonymLookup := synonymLookup[normFull := abbr];
        if abbr == "nebosh-general" {
          synonymLookup := synonymLookup["nebosh general" := abbr];
          synonymLookup := synonymLookup["neboshgeneral" := abbr];
        }
        if abbr == "nebosh-construction" {
          synonymLookup := synonymLookup["nebosh construction" := abbr];
          synonymLookup := synonymLookup["neboshconstruction" := abbr];
        }
        assert synonymLookup == Put(before, EntryKeys((abbr, full)), abbr) by {
          PutEntry(before, abbr, full);
        }
        assert keywordSynonyms[i] == (abbr, full);
        FillPrefixStep(map[], keywordSynonyms, i, EntryKeys, Abbr);
        i := i + 1;
      }
      assert keywordSynonyms[..i] == keywordSynonyms;
      TableWellFormed();
    }

    /**
     * Lines 57-129. The result is the kept products in their order; each
     * kept product gets the meta `buildMeta` would build; every other
     * product, and every other field, is left as it was.
     */
    method SearchCourses(allProducts: seq<Product>, q: Query, today: Day, parse: string -> Option<Day>)
      returns (result: seq<Product>)
      requires Valid()
      modifies set p | p in allProducts
      ensures result == Selected(allProducts, q, Resolve(keywordSynonyms, q.keyword), today, parse)
      ensures forall p :: p in allProducts ==> (p.meta ==
        if Kept(p.record, q, Resolve(keywordSynonyms, q.keyword), today, parse)
        then BuildMeta(p.record, today, parse)
        else old(p.meta))
    {
      ghost var res := Resolve(keywordSynonyms, q.keyword);
      var keywordInput := Trim(Lower(q.keyword));
      if keywordInput !in synonymLookup || synonymLookup[keywordInput] == "" {
        UnresolvedEmpty(allProducts, q, today, parse);
        return [];
      }
      var keywordKey := synonymLookup[keywordInput];
      LookupValue(keywordSynonyms, keywordInput);
      var resolved := Resolved(keywordInput, keywordKey, Lower(KeywordMap(keywordSynonyms)[keywordKey]));
      assert res == Some(resolved);
      result := FilterProducts(allProducts, q, resolved, today, parse);
    }
  }

  /**
   * The `filter` callback of lines 68-128 run over the products for a
   * resolved keyword: it keeps the accepted products in order and writes
   * `_meta` into each of them, and into nothing else.
   */
  method FilterProducts(allProducts: seq<Product>, q: Query, r: Resolved, today: Day, parse: string -> Option<Day>)
    returns (result: seq<Product>)
    requires r.input != "" && r.key != "" && r.full != ""
    modifies set p | p in allProducts
    ensures result == Selected(allProducts, q, Some(r), today, parse)
    ensures forall p :: p in allProducts ==> (p.meta ==
      if Accepts(p.record, q, r, today, parse) then BuildMeta(p.record, today, parse) else old(p.meta))
  {
    result := [];
    var i := 0;
    while i < |allProducts|
      invariant 0 <= i <= |allProducts|
      invariant result == Selected(allProducts[..i], q, Some(r), today, parse)
      invariant forall p :: p in allProducts ==> (p.meta ==
        if p in allProducts[..i] && Accepts(p.record, q, r, today, parse)
        then BuildMeta(p.record, today, parse)
        else old(p.meta))
    {
      var product := allProducts[i];
      SelectedStep(allProducts, i, q, Some(r), today, parse);
      assert allProducts[..i + 1] == allProducts[..i] + [product];
      var kept := Visit(product, q, r, today, parse);
      if kept {
        result := result + [product];
      }
      i := i + 1;
    }
    assert allProducts[..i] == allProducts;
  }

  /** The callback for one product: every check, then the `_meta` write for a product that passes. */
  method Visit(product: Product, q: Query, r: Resolved, today: Day, parse: string -> Option<Day>) returns (kept: bool)
    requires r.input != "" && r.key != "" && r.full != ""
    modifies product
    ensures kept == Accepts(product.record, q, r, today, parse)
    ensures product.meta == if kept then BuildMeta(product.record, today, parse) else old(product.meta)
  {
    kept := Accepts(product.record, q, r, today, parse);
    if kept {
      KeptNamed(product.record, q, r, today, parse);
      SearchMetaIsBuildMeta(product.record, today, parse);
      product.meta := Some(SearchMeta(product.record, today, parse));
    }
  }

  /** The writes of one `forEach` step are `Put` of the entry's keys. */
  lemma PutEntry(m: map<string, string>, abbr: string, full: string)
    ensures var m1 := m[Lower(abbr) := abbr][Trim(Lower(full)) := abbr];
      var m2 := if abbr == "nebosh-general" then m1["nebosh general" := abbr]["neboshgeneral" := abbr] else m1;
      var m3 := if abbr == "nebosh-construction" then m2["nebosh construction" := abbr]["neboshconstruction" := abbr] else m2;
      m3 == Put(m, EntryKeys((abbr, full)), abbr)
  {
    var ks := EntryKeys((abbr, full));
    PutSnoc(m, [], ks[0], abbr);
    PutSnoc(m, [ks[0]], ks[1], abbr);
    assert [ks[0]] == [] + [ks[0]];
    assert ks[..2] == [ks[0]] + [ks[1]];
    if |ks| == 4 {
      PutSnoc(m, ks[..2], ks[2], abbr);
      PutSnoc(m, ks[..3], ks[3], abbr);
      assert ks[..3] == ks[..2] + [ks[2]];
      assert ks == ks[..3] + [ks[3]];
    } else {
      assert ks == ks[..2];
    }
  }

  /** An entry with a non-empty abbreviation and a full name ending in a letter writes non-empty keys. */
  lemma EntryWellFormed(e: Entry)
    requires e.0 != "" && e.1 != "" && 'a' <= e.1[|e.1| - 1] <= 'z'
    ensures forall k :: k in EntryKeys(e) ==> k != ""
  {
    var s := Lower(e.1);
    assert s[|s| - 1] == LowerChar(e.1[|e.1| - 1]) && !IsSpace(s[|s| - 1]);
    assert SkipSpacesBack(s, |s|) == |s| && SkipSpaces(s, 0) < |s|;
  }

  lemma TableWellFormed()
    ensures WellFormed(KeywordSynonyms)
  {
    var t := KeywordSynonyms;
    EntryWellFormed(t[0]);
    EntryWellFormed(t[1]);
    EntryWellFormed(t[2]);
    EntryWellFormed(t[3]);
    EntryWellFormed(t[4]);
    EntryWellFormed(t[5]);
    EntryWellFormed(t[6]);
  }

  // ---------------------------------------------------------------------
  // The table of lib/search.js

  /** A key resolves to the abbreviation of the last entry that writes it. */
  lemma EntryResolves(table: seq<Entry>, i: nat, k: string)
    requires i < |table| && k in EntryKeys(table[i])
    requires forall j :: i < j < |table| ==> k !in EntryKeys(table[j])
    ensures k in Lookup(table) && Lookup(table)[k] == table[i].0
  {
    FillLast(table, EntryKeys, Abbr, i, k);
  }

  /** A text ending in non-spaces keeps, trimmed and lower-cased, its last characters lower-cased. */
  lemma TrimLowerTail(s: string, n: nat)
    requires 1 <= n <= 2 && n <= |s| && !IsSpace(s[|s| - 1]) && !IsSpace(s[|s| - n])
    ensures var t := Trim(Lower(s)); n <= |t| && t[|t| - n] == LowerChar(s[|s| - n])
  {
    var l := Lower(s);
    assert !IsSpace(l[|l| - 1]) && !IsSpace(l[|l| - n]);
    assert SkipSpacesBack(l, |l|) == |l|;
    var a := SkipSpaces(l, 0);
    assert a <= |l| - n;
    assert Trim(Lower(s)) == l[a..];
  }

  /** `k` is none of the keys of `e`, told apart by the character `n` places from the end of the full name. */
  lemma NotKeyOfEntry(k: string, e: Entry, i: nat, n: nat)
    requires 1 <= n <= 2 && n <= |k| && n <= |e.1| && !IsSpace(e.1[|e.1| - 1]) && !IsSpace(e.1[|e.1| - n])
    requires k[|k| - n] != LowerChar(e.1[|e.1| - n])
    requires |e.0| != |k| || (i < |k| && LowerChar(e.0[i]) != k[i])
    requires k !in ExtraKeys(e.0)
    ensures k !in EntryKeys(e)
  {
    TrimLowerTail(e.1, n);
    if |e.0| == |k| {
      assert Lower(e.0)[i] != k[i];
    }
  }

  lemma ResolvesSmsts()
    ensures KeywordSynonyms[0].0 in Lookup(KeywordSynonyms)
    ensures Lookup(KeywordSynonyms)[KeywordSynonyms[0].0] == KeywordSynonyms[0].0
  {
    var t := KeywordSynonyms;
    var k := t[0].0;
    assert Lower(k) == k;
    assert k !in EntryKeys(t[1]) by { NotKeyOfEntry(k, t[1], 1, 1); }
    assert k !in EntryKeys(t[2]) by { NotKeyOfEntry(k, t[2], 0, 1); }
    assert k !in EntryKeys(t[3]) by { NotKeyOfEntry(k, t[3], 0, 1); }
    assert k !in EntryKeys(t[4]) by { NotKeyOfEntry(k, t[4], 0, 2); }
    assert k !in EntryKeys(t[5]) by { NotKeyOfEntry(k, t[5], 0, 1); }
    assert k !in EntryKeys(t[6]) by { NotKeyOfEntry(k, t[6], 0, 1); }
    EntryResolves(t, 0, k);
  }

  lemma ResolvesSssts()
    ensures KeywordSynonyms[1].0 in Lookup(KeywordSynonyms)
    ensures Lookup(KeywordSynonyms)[KeywordSynonyms[1].0] == KeywordSynonyms[1].0
  {
    var t := KeywordSynonyms;
    var k := t[1].0;
    assert k in EntryKeys(t[1]) by { assert Lower(k) == k; }
    assert k !in EntryKeys(t[2]) by { NotKeyOfEntry(k, t[2], 0, 1); }
    assert k !in EntryKeys(t[3]) by { NotKeyOfEntry(k, t[3], 0, 1); }
    assert k !in EntryKeys(t[4]) by { NotKeyOfEntry(k, t[4], 0, 2); }
    assert k !in EntryKeys(t[5]) by { NotKeyOfEntry(k, t[5], 0, 1); }
    assert k !in EntryKeys(t[6]) by { NotKeyOfEntry(k, t[6], 0, 1); }
    assert forall j :: 1 < j < |t| ==> k !in EntryKeys(t[j]) by {
      forall j | 1 < j < |t| ensures k !in EntryKeys(t[j]) {
        assert j == 2 || j == 3 || j == 4 || j == 5 || j == 6;
      }
    }
    EntryResolves(t, 1, k);
  }

  lemma ResolvesTwc()
    ensures KeywordSynonyms[2].0 in Lookup(KeywordSynonyms)
    ensures Lookup(KeywordSynonyms)[KeywordSynonyms[2].0] == KeywordSynonyms[2].0
  {
    var t := KeywordSynonyms;
    var k := t[2].0;
    assert Lower(k) == k;
    assert k !in EntryKeys(t[3]) by { NotKeyOfEntry(k, t[3], 2, 1); }
    assert k !in EntryKeys(t[4]) by { NotKeyOfEntry(k, t[4], 0, 1); }
    assert k !in EntryKeys(t[5]) by { NotKeyOfEntry(k, t[5], 0, 1); }
    assert k !in EntryKeys(t[6]) by { NotKeyOfEntry(k, t[6], 0, 1); }
    EntryResolves(t, 2, k);
  }

  lemma ResolvesTws()
    ensures KeywordSynonyms[3].0 in Lookup(KeywordSynonyms)
    ensures Lookup(KeywordSynonyms)[KeywordSynonyms[3].0] == KeywordSynonyms[3].0
  {
    var t := KeywordSynonyms;
    var k := t[3].0;
    assert Lower(k) == k;
    assert k !in EntryKeys(t[4]) by { NotKeyOfEntry(k, t[4], 0, 2); }
    assert k !in EntryKeys(t[5]) by { NotKeyOfEntry(k, t[5], 0, 1); }
    assert k !in EntryKeys(t[6]) by { NotKeyOfEntry(k, t[6], 0, 1); }
    EntryResolves(t, 3, k);
  }

  lemma ResolvesHsa()
    ensures KeywordSynonyms[4].0 in Lookup(KeywordSynonyms)
    ensures Lookup(KeywordSynonyms)[KeywordSynonyms[4].0] == KeywordSynonyms[4].0
  {
    var t := KeywordSynonyms;
    var k := t[4].0;
    assert Lower(k) == k;
    assert k !in EntryKeys(t[5]) by { NotKeyOfEntry(k, t[5], 0, 1); }
    assert k !in EntryKeys(t[6]) by { NotKeyOfEntry(k, t[6], 0, 1); }
    EntryResolves(t, 4, k);
  }

  lemma ResolvesNeboshGeneral()
    ensures KeywordSynonyms[5].0 in Lookup(KeywordSynonyms)
    ensures Lookup(KeywordSynonyms)[KeywordSynonyms[5].0] == KeywordSynonyms[5].0
  {
    var t := KeywordSynonyms;
    var k := t[5].0;
    assert Lower(k) == k;
    assert k !in EntryKeys(t[6]) by { NotKeyOfEntry(k, t[6], 0, 1); }
    EntryResolves(t, 5, k);
  }

  lemma ResolvesNeboshConstruction()
    ensures KeywordSynonyms[6].0 in Lookup(KeywordSynonyms)
    ensures Lookup(KeywordSynonyms)[KeywordSynonyms[6].0] == KeywordSynonyms[6].0
  {
    var t := KeywordSynonyms;
    var k := t[6].0;
    assert Lower(k) == k;

    EntryResolves(t, 6, k);
  }

  /** Each abbreviation of lib/search.js resolves to itself (lines 16-18). */
  lemma AbbreviationResolves(i: nat)
    requires i < |KeywordSynonyms|
    ensures KeywordSynonyms[i].0 in Lookup(KeywordSynonyms)
    ensures Lookup(KeywordSynonyms)[KeywordSynonyms[i].0] == KeywordSynonyms[i].0
  {
    if i == 0 {
      ResolvesSmsts();
    } else if i == 1 {
      ResolvesSssts();
    } else if i == 2 {
      ResolvesTwc();
    } else if i == 3 {
      ResolvesTws();
    } else if i == 4 {
      ResolvesHsa();
    } else if i == 5 {
      ResolvesNeboshGeneral();
    } else {
      ResolvesNeboshConstruction();
    }
  }

  /** A text with no space at either end is its own trimmed, lower-cased form, lower-cased. */
  lemma TrimLowerWhole(s: string)
    requires |s| > 0 && !IsSpace(s[0]) && !IsSpace(s[|s| - 1])
    ensures Trim(Lower(s)) == Lower(s)
  {
    var l := Lower(s);
    assert !IsSpace(l[0]) && !IsSpace(l[|l| - 1]);
    assert SkipSpaces(l, 0) == 0 && SkipSpacesBack(l, |l|) == |l|;
    assert l[0..|l|] == l;
  }

  /** Two strings whose last characters differ are different. */
  lemma LastDiffers(x: string, y: string)
    requires |x| > 0 && |y| > 0 && x[|x| - 1] != y[|y| - 1]
    ensures x != y
  {
  }

  /** Two full names that differ `n` places from the end give different keys. */
  lemma FullKeysByTail(s1: string, s2: string, n: nat)
    requires 1 <= n <= 2 && n <= |s1| && n <= |s2|
    requires !IsSpace(s1[|s1| - 1]) && !IsSpace(s1[|s1| - n]) && !IsSpace(s2[|s2| - 1]) && !IsSpace(s2[|s2| - n])
    requires LowerChar(s1[|s1| - n]) != LowerChar(s2[|s2| - n])
    ensures Trim(Lower(s1)) != Trim(Lower(s2))
  {
    TrimLowerTail(s1, n);
    TrimLowerTail(s2, n);
  }

  /** Two full names of different lengths, with no space at either end, give different keys. */
  lemma FullKeysByLength(s1: string, s2: string)
    requires |s1| > 0 && |s2| > 0 && |s1| != |s2|
    requires !IsSpace(s1[0]) && !IsSpace(s2[0]) && !IsSpace(s1[|s1| - 1]) && !IsSpace(s2[|s2| - 1])
    ensures Trim(Lower(s1)) != Trim(Lower(s2))
  {
    TrimLowerWhole(s1);
    TrimLowerWhole(s2);
  }

  /** The full-name key of `a` is neither the abbreviation key nor an extra phrase of `b`: those end in another letter. */
  lemma FullKeyNotShortKey(a: Entry, b: Entry)
    requires |a.1| > 0 && !IsSpace(a.1[|a.1| - 1])
    requires b.0 != "" && LowerChar(b.0[|b.0| - 1]) != LowerChar(a.1[|a.1| - 1])
    requires forall x :: x in ExtraKeys(b.0) ==> x != "" && x[|x| - 1] != LowerChar(a.1[|a.1| - 1])
    ensures Trim(Lower(a.1)) != Lower(b.0) && Trim(Lower(a.1)) !in ExtraKeys(b.0)
  {
    var k := Trim(Lower(a.1));
    TrimLowerTail(a.1, 1);
    LastDiffers(Lower(b.0), k);
    forall x | x in ExtraKeys(b.0) ensures x != k {
      LastDiffers(x, k);
    }
  }

  /** A key that is no key of `b` one by one is not among the keys `b` writes. */
  lemma NotAmongKeys(k: string, b: Entry)
    requires k != Lower(b.0) && k != Trim(Lower(b.1)) && k !in ExtraKeys(b.0)
    ensures k !in EntryKeys(b)
  {
  }

  lemma FullSmstsLater(j: nat)
    requires 0 < j < |KeywordSynonyms|
    ensures Trim(Lower(KeywordSynonyms[0].1)) !in EntryKeys(KeywordSynonyms[j])
  {
    var a, b := KeywordSynonyms[0], KeywordSynonyms[j];
    if j == 1 {
      FullKeysByLength(a.1, b.1);
    } else if j == 6 {
      FullKeysByTail(a.1, b.1, 2);
    } else {
      assert j == 2 || j == 3 || j == 4 || j == 5;
      FullKeysByTail(a.1, b.1, 1);
    }
    FullKeyNotShortKey(a, b);
    NotAmongKeys(Trim(Lower(a.1)), b);
  }

  lemma FullSsstsLater(j: nat)
    requires 1 < j < |KeywordSynonyms|
    ensures Trim(Lower(KeywordSynonyms[1].1)) !in EntryKeys(KeywordSynonyms[j])
  {
    var a, b := KeywordSynonyms[1], KeywordSynonyms[j];
    if j == 6 {
      FullKeysByTail(a.1, b.1, 2);
    } else {
      assert j == 2 || j == 3 || j == 4 || j == 5;
      FullKeysByTail(a.1, b.1, 1);
    }
    FullKeyNotShortKey(a, b);
    NotAmongKeys(Trim(Lower(a.1)), b);
  }

  lemma FullTwcLater(j: nat)
    requires 2 < j < |KeywordSynonyms|
    ensures Trim(Lower(KeywordSynonyms[2].1)) !in EntryKeys(KeywordSynonyms[j])
  {
    var a, b := KeywordSynonyms[2], KeywordSynonyms[j];
    if j == 3 {
      FullKeysByLength(a.1, b.1);
    } else {
      assert j == 4 || j == 5 || j == 6;
      FullKeysByTail(a.1, b.1, 1);
    }
    FullKeyNotShortKey(a, b);
    NotAmongKeys(Trim(Lower(a.1)), b);
  }

  lemma FullTwsLater(j: nat)
    requires 3 < j < |KeywordSynonyms|
    ensures Trim(Lower(KeywordSynonyms[3].1)) !in EntryKeys(KeywordSynonyms[j])
  {
    var a, b := KeywordSynonyms[3], KeywordSynonyms[j];
    assert j == 4 || j == 5 || j == 6;
    FullKeysByTail(a.1, b.1, 1);
    FullKeyNotShortKey(a, b);
    NotAmongKeys(Trim(Lower(a.1)), b);
  }

  lemma FullHsaLater(j: nat)
    requires 4 < j < |KeywordSynonyms|
    ensures Trim(Lower(KeywordSynonyms[4].1)) !in EntryKeys(KeywordSynonyms[j])
  {
    var a, b := KeywordSynonyms[4], KeywordSynonyms[j];
    assert j == 5 || j == 6;
    FullKeysByTail(a.1, b.1, 1);
    FullKeyNotShortKey(a, b);
    NotAmongKeys(Trim(Lower(a.1)), b);
  }

  lemma FullNeboshGeneralLater(j: nat)
    requires 5 < j < |KeywordSynonyms|
    ensures Trim(Lower(KeywordSynonyms[5].1)) !in EntryKeys(KeywordSynonyms[j])
  {
    var a, b := KeywordSynonyms[5], KeywordSynonyms[j];
    FullKeysByTail(a.1, b.1, 1);
    FullKeyNotShortKey(a, b);
    NotAmongKeys(Trim(Lower(a.1)), b);
  }

  /** Each full name of lib/search.js, lower-cased and trimmed, resolves to its abbreviation (lines 16-19). */
  lemma FullNameResolves(i: nat)
    requires i < |KeywordSynonyms|
    ensures var k := Trim(Lower(KeywordSynonyms[i].1));
      k in Lookup(KeywordSynonyms) && Lookup(KeywordSynonyms)[k] == KeywordSynonyms[i].0
  {
    var t := KeywordSynonyms;
    var k := Trim(Lower(t[i].1));
    forall j | i < j < |t| ensures k !in EntryKeys(t[j]) {
      if i == 0 { FullSmstsLater(j); }
      else if i == 1 { FullSsstsLater(j); }
      else if i == 2 { FullTwcLater(j); }
      else if i == 3 { FullTwsLater(j); }
      else if i == 4 { FullHsaLater(j); }
      else if i == 5 { FullNeboshGeneralLater(j); }
    }
    assert k in EntryKeys(t[i]);
    EntryResolves(t, i, k);
  }

  /** The hand-written NEBOSH phrases resolve to their abbreviations (lines 22-29). */
  lemma NeboshPhrasesResolve()
    ensures var m := Lookup(KeywordSynonyms);
      "nebosh general" in m && m["nebosh general"] == "nebosh-general" &&
      "neboshgeneral" in m && m["neboshgeneral"] == "nebosh-general" &&
      "nebosh construction" in m && m["nebosh construction"] == "nebosh-construction" &&
      "neboshconstruction" in m && m["neboshconstruction"] == "nebosh-construction"
  {
    var t := KeywordSynonyms;
    assert EntryKeys(t[5])[2..] == ["nebosh general", "neboshgeneral"];
    assert EntryKeys(t[6])[2..] == ["nebosh construction", "neboshconstruction"];
    NotKeyOfEntry("nebosh general", t[6], 0, 1);
    NotKeyOfEntry("neboshgeneral", t[6], 0, 1);
    EntryResolves(t, 5, "nebosh general");
    EntryResolves(t, 5, "neboshgeneral");
    EntryResolves(t, 6, "nebosh construction");
    EntryResolves(t, 6, "neboshconstruction");
  }

  /** "nebosh" on its own is no key: the family name needs its qualifier (lines 58-60). */
  lemma NeboshAloneUnresolved()
    ensures Resolve(KeywordSynonyms, "nebosh") == None
    ensures Resolve(KeywordSynonyms, "NEBOSH") == None
  {
    var t := KeywordSynonyms;
    var k := "nebosh";
    assert Trim(Lower("nebosh")) == k && Trim(Lower("NEBOSH")) == k;
    forall i | 0 <= i < |t| ensures k !in EntryKeys(t[i]) {
      NotKeyOfEntry(k, t[i], 0, 1);
    }
    FillKeys(t, EntryKeys, Abbr, k);
  }
}
