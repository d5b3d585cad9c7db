/**
 * pages/api/ask.js: the older `searchCourses`, which substitutes a
 * table key inside the keyword and then asks for every word of the result
 * in the course name, and the two decisions of the API handler that do
 * not depend on the network: the follow-up question when fewer than two
 * search slots are known, and the wording of the reply's first sentence.
 * Its `extractLocation` (lines 12-15) is the same text as
 * lib/utils/location.js and is modelled by `Location`.
 */
module Ask {
  import opened Wrappers
  import opened Strings
  import opened Numbers
  import opened Courses
  import opened CourseFilters

  /** The handler's own `keywordSynonyms` (lines 3-10), in declaration order. */
  const AskSynonyms: seq<(string, string)> := [
    ("smsts", "Site Management Safety Training Scheme"),
    ("sssts", "Site Supervisor Safety Training Scheme"),
    ("twc", "Temporary Works Coordinator"),
    ("tws", "Temporary Works Supervisor"),
    ("hsa", "Health and Safety Awareness"),
    ("nebosh", "NEBOSH National General Certificate in Occupational Health and Safety")]

  // ---------------------------------------------------------------------
  // Keyword resolution (lines 25-35)

  /** The index of the first key at or after `i`, in table order, that the input contains. */
  function FirstKeyIn(input: string, table: seq<(string, string)>, i: nat): (r: Option<nat>)
    requires i <= |table|
    ensures r.Some? ==> i <= r.value < |table| && Contains(input, table[r.value].0)
    decreases |table| - i
  {
    if i == |table| then None
    else if Contains(input, table[i].0) then Some(i)
    else FirstKeyIn(input, table, i + 1)
  }

  /** No key before the found one is contained; no key at all when nothing is found. */
  lemma {:induction false} FirstKeyInSpec(input: string, table: seq<(string, string)>, i: nat)
    requires i <= |table|
    ensures var r := FirstKeyIn(input, table, i);
      (r.None? ==> forall j :: i <= j < |table| ==> !Contains(input, table[j].0)) &&
      (r.Some? ==> forall j :: i <= j < r.value ==> !Contains(input, table[j].0))
    decreases |table| - i
  {
    if i < |table| && !Contains(input, table[i].0) {
      FirstKeyInSpec(input, table, i + 1);
    }
  }

  /**
   * The resolved keyword for a trimmed, lower-cased input: the first
   * occurrence of the first contained key replaced by its full name, the
   * whole lower-cased.
   */
  function Resolution(input: string): string {
    var k := FirstKeyIn(input, AskSynonyms, 0);
    Lower(if k.Some? then ReplaceFirst(input, AskSynonyms[k.value].0, AskSynonyms[k.value].1) else input)
  }

  /** Lines 25-35: the `for…in` over the table that stops at the first contained key. */
  method ResolveKeyword(keyword: string) returns (resolved: string)
    ensures resolved == Resolution(Trim(Lower(keyword)))
  {
    var keywordInput := Trim(Lower(keyword));
    resolved := keywordInput;
    var i := 0;
    while i < |AskSynonyms|
      invariant 0 <= i <= |AskSynonyms|
      invariant FirstKeyIn(keywordInput, AskSynonyms, 0) == FirstKeyIn(keywordInput, AskSynonyms, i)
      invariant resolved == keywordInput
    {
      if Contains(keywordInput, AskSynonyms[i].0) {
        resolved := ReplaceFirst(keywordInput, AskSynonyms[i].0, AskSynonyms[i].1);
        break;
      }
      i := i + 1;
    }
    resolved := Lower(resolved);
  }

  /**
   * What the resolution promises: with a contained key, the first key in
   * table order wins and its first occurrence gives way to the full name;
   * with none, the input is kept.
   */
  lemma ResolutionSpec(input: string)
    ensures var r := FirstKeyIn(input, AskSynonyms, 0);
      (r.None? ==> (forall j :: 0 <= j < |AskSynonyms| ==> !Contains(input, AskSynonyms[j].0)) && Resolution(input) == Lower(input)) &&
      (r.Some? ==> ((forall j :: 0 <= j < r.value ==> !Contains(input, AskSynonyms[j].0)) &&
        exists k :: 0 <= k && k + |AskSynonyms[r.value].0| <= |input| &&
          OccursAt(input, AskSynonyms[r.value].0, k) &&
          (forall j :: 0 <= j < k ==> !OccursAt(input, AskSynonyms[r.value].0, j)) &&
          Resolution(input) == Lower(input[..k] + AskSynonyms[r.value].1 + input[k + |AskSynonyms[r.value].0|..])))
  {
    FirstKeyInSpec(input, AskSynonyms, 0);
    var r := FirstKeyIn(input, AskSynonyms, 0);
    if r.Some? {
      var e := AskSynonyms[r.value];
      ReplaceFirstAt(input, e.0, e.1);
    }
  }

  /** An empty keyword resolves to the empty string: every key is non-empty. */
  lemma EmptyResolution()
    ensures Resolution("") == ""
  {
    forall j | 0 <= j < |AskSynonyms| ensures !Contains("", AskSynonyms[j].0) {
      NotContainedInEmpty(AskSynonyms[j].0);
    }
    FirstKeyInSpec("", AskSynonyms, 0);
  }

  lemma TwcContainsNoEarlierKey()
    ensures !Contains("twc", "smsts") && !Contains("twc", "sssts") && Contains("twc", "twc")
  {
    NotContainsLonger("twc", "smsts");
    NotContainsLonger("twc", "sssts");
    ContainsSelf("twc");
  }

  lemma TwcFirstKey()
    ensures FirstKeyIn("twc", AskSynonyms, 0) == Some(2)
  {
    TwcContainsNoEarlierKey();
    assert AskSynonyms[0].0 == "smsts" && AskSynonyms[1].0 == "sssts" && AskSynonyms[2].0 == "twc";
  }

  lemma TwcReplaced()
    ensures ReplaceFirst("twc", "twc", "Temporary Works Coordinator") == "Temporary Works Coordinator"
  {
    ContainsSelf("twc");
    ReplaceFirstAt("twc", "twc", "Temporary Works Coordinator");
    assert FindFrom("twc", "twc", 0) == 0;
    assert "twc"[..0] + "Temporary Works Coordinator" + "twc"[3..] == "Temporary Works Coordinator";
  }

  lemma TemporaryLower()
    ensures Lower("Temporary ") == "temporary "
  {
    assert LowersTo("Temporary ", "temporary ", 5);
    LowerOf("Temporary ", "temporary ");
  }

  lemma WorksLower()
    ensures Lower("Works ") == "works "
  {
    LowerOf("Works ", "works ");
  }

  lemma CoordinatorLower()
    ensures Lower("Coordinator") == "coordinator"
  {
    assert LowersTo("Coordinator", "coordinator", 6);
    LowerOf("Coordinator", "coordinator");
  }

  lemma TwcLower()
    ensures Lower("Temporary Works Coordinator") == "temporary works coordinator"
  {
    TemporaryLower();
    WorksLower();
    CoordinatorLower();
    LowerConcat("Temporary ", "Works ");
    LowerConcat("Temporary " + "Works ", "Coordinator");
    TwcPieces();
  }

  lemma TwcPieces()
    ensures "Temporary " + "Works " + "Coordinator" == "Temporary Works Coordinator"
    ensures "temporary " + "works " + "coordinator" == "temporary works coordinator"
  {
    assert "Temporary " + "Works " + "Coordinator" == "Temporary Works Coordinator";
  }

  /** "twc" becomes the lower-cased full name of the temporary works coordinator course. */
  lemma TwcResolution()
    ensures Resolution("twc") == "temporary works coordinator"
  {
    TwcFirstKey();
    assert AskSynonyms[2] == ("twc", "Temporary Works Coordinator");
    TwcReplaced();
    TwcLower();
  }

  // ---------------------------------------------------------------------
  // The filter (lines 40-62)

  /** Every word of `resolved`, split on single spaces, occurs in `name`. */
  predicate AllWordsIn(name: string, resolved: string) {
    forall w :: w in Split(resolved, ' ') ==> Contains(name, w)
  }

  /**
   * The callback of lines 40-62: the words, then the seat, month and
   * location checks shared with lib/search.js. (`product.start_date || ''`
   * turns an absent date into the empty one, which the month check skips
   * in both forms.) There is no date cut-off: `isFutureDate` is never called.
   */
  predicate OldAccepts(p: CourseRecord, resolved: string, monthLower: Option<string>, requireSpaces: bool, locationLower: Option<string>) {
    var name := LowerName(p);
    AllWordsIn(name, resolved)
    && SeatsOk(requireSpaces, p.availableSpaces)
    && MonthOk(monthLower, p.startDate)
    && LocationOk(locationLower, name)
  }

  /** `allProducts.filter(…)`. */
  function OldFilter(ps: seq<CourseRecord>, resolved: string, monthLower: Option<string>, requireSpaces: bool, locationLower: Option<string>): seq<CourseRecord> {
    if ps == [] then []
    else
      var rest := OldFilter(ps[..|ps| - 1], resolved, monthLower, requireSpaces, locationLower);
      if OldAccepts(ps[|ps| - 1], resolved, monthLower, requireSpaces, locationLower) then rest + [ps[|ps| - 1]] else rest
  }

  /** Lines 24-63: the keyword is resolved by the loop, then the products are filtered. */
  method OldSearchCourses(allProducts: seq<CourseRecord>, keyword: string, month: Option<string>, requireSpaces: bool, location: Option<string>)
    returns (result: seq<CourseRecord>)
    ensures result == OldFilter(allProducts, Resolution(Trim(Lower(keyword))), OptionalLower(month), requireSpaces, OptionalLower(location))
  {
    var resolvedKeyword := ResolveKeyword(keyword);
    var monthLower := OptionalLower(month);
    var locationLower := OptionalLower(location);
    result := OldFilter(allProducts, resolvedKeyword, monthLower, requireSpaces, locationLower);
  }

  /** The filter keeps the input's order: it distributes over concatenation. */
  lemma {:induction false} OldFilterAppend(a: seq<CourseRecord>, b: seq<CourseRecord>, resolved: string, m: Option<string>, req: bool, l: Option<string>)
    ensures OldFilter(a + b, resolved, m, req, l) == OldFilter(a, resolved, m, req, l) + OldFilter(b, resolved, m, req, l)
    decreases |b|
  {
    if b != [] {
      assert (a + b)[..|a + b| - 1] == a + b[..|b| - 1];
      OldFilterAppend(a, b[..|b| - 1], resolved, m, req, l);
    } else {
      assert a + b == a;
    }
  }

  /** A record is in the result exactly when it is in the input and passes every check. */
  lemma {:induction false} OldFilterMembers(ps: seq<CourseRecord>, resolved: string, m: Option<string>, req: bool, l: Option<string>, p: CourseRecord)
    ensures p in OldFilter(ps, resolved, m, req, l) <==> p in ps && OldAccepts(p, resolved, m, req, l)
    decreases |ps|
  {
    if ps != [] {
      OldFilterMembers(ps[..|ps| - 1], resolved, m, req, l, p);
      assert ps == ps[..|ps| - 1] + [ps[|ps| - 1]];
    }
  }

  /** Every returned name contains every word of the resolved keyword. */
  lemma OldResultWords(ps: seq<CourseRecord>, resolved: string, m: Option<string>, req: bool, l: Option<string>, p: CourseRecord, w: string)
    requires p in OldFilter(ps, resolved, m, req, l) && w in Split(resolved, ' ')
    ensures Contains(LowerName(p), w)
  {
    OldFilterMembers(ps, resolved, m, req, l, p);
  }

  /** An empty keyword puts no constraint on the name: its only word is "", which every name contains. */
  lemma EmptyKeywordMatchesAll(name: string)
    ensures AllWordsIn(name, Resolution(""))
  {
    EmptyResolution();
    assert Split("", ' ') == [""];
    ContainsEmpty(name);
  }

  /** The end date plays no part: moving it anywhere, into the past included, changes nothing. */
  lemma NoDateCutoff(p: CourseRecord, endDate: Option<string>, resolved: string, m: Option<string>, req: bool, l: Option<string>)
    ensures OldAccepts(p.(endDate := endDate), resolved, m, req, l) == OldAccepts(p, resolved, m, req, l)
  {
    assert LowerName(p.(endDate := endDate)) == LowerName(p);
  }

  /** Without a month request, the start date plays no part either. */
  lemma NoStartCutoff(p: CourseRecord, startDate: Option<string>, resolved: string, req: bool, l: Option<string>)
    ensures OldAccepts(p.(startDate := startDate), resolved, None, req, l) == OldAccepts(p, resolved, None, req, l)
  {
    assert LowerName(p.(startDate := startDate)) == LowerName(p);
  }

  // ---------------------------------------------------------------------
  // The handler's decisions (lines 102-125)

  /** JavaScript truthiness of an optional string argument. */
  predicate Truthy(x: Option<string>) {
    x.Some? && x.value != ""
  }

  /** `[keyword, month, location].filter(Boolean).length`. */
  function SlotCount(keyword: Option<string>, month: Option<string>, location: Option<string>): (n: nat)
    ensures n <= 3
    ensures n == 0 <==> !Truthy(keyword) && !Truthy(month) && !Truthy(location)
  {
    (if Truthy(keyword) then 1 else 0) + (if Truthy(month) then 1 else 0) + (if Truthy(location) then 1 else 0)
  }

  const GenericPrompt := "To help you better, could you please let me know the course type, month, or location?"
  const ThanksHead := "Thanks! You've told me "
  const ThanksTail := ". Could you also provide one more detail, like the month or location, so I can show you relevant courses?"

  /** Line 106: the one parameter that is named back, keyword first, then month, then location. */
  function KnownParam(keyword: Option<string>, month: Option<string>, location: Option<string>): Option<string> {
    if Truthy(keyword) then Some("the course type \"" + keyword.value + "\"")
    else if Truthy(month) then Some("the month \"" + month.value + "\"")
    else if Truthy(location) then Some("the location \"" + location.value + "\"")
    else None
  }

  /** Lines 103-111: the follow-up reply, or None when the search goes ahead. */
  function FollowUp(keyword: Option<string>, month: Option<string>, location: Option<string>): Option<string> {
    if SlotCount(keyword, month, location) >= 2 then None
    else
      var known := KnownParam(keyword, month, location);
      Some(if known.Some? then ThanksHead + known.value + ThanksTail else GenericPrompt)
  }

  /** A follow-up is sent exactly when fewer than two slots are filled. */
  lemma FollowUpWhenFewSlots(keyword: Option<string>, month: Option<string>, location: Option<string>)
    ensures FollowUp(keyword, month, location).Some? <==>
      !((Truthy(keyword) && Truthy(month)) || (Truthy(keyword) && Truthy(location)) || (Truthy(month) && Truthy(location)))
  {
  }

  /** With no slot filled, the generic prompt is sent. */
  lemma FollowUpNothingKnown(keyword: Option<string>, month: Option<string>, location: Option<string>)
    requires !Truthy(keyword) && !Truthy(month) && !Truthy(location)
    ensures FollowUp(keyword, month, location) == Some(GenericPrompt)
  {
  }

  /** The thanks sentence quotes the value it names: `opening` ends with the opening quote. */
  lemma ThanksQuotes(opening: string, v: string)
    requires |opening| > 0 && opening[|opening| - 1] == '"'
    ensures Contains(ThanksHead + (opening + v + "\"") + ThanksTail, "\"" + v + "\"")
  {
    var tag := opening[..|opening| - 1];
    var q := "\"" + v + "\"";
    assert opening == tag + "\"";
    assert opening + v + "\"" == tag + q;
    assert ThanksHead + (tag + q) + ThanksTail == (ThanksHead + tag) + q + ThanksTail;
    ContainsMiddle(ThanksHead + tag, q, ThanksTail);
  }

  /** With exactly one slot filled, the reply thanks the user and quotes that slot's value. */
  lemma FollowUpQuotesKnown(keyword: Option<string>, month: Option<string>, location: Option<string>)
    requires SlotCount(keyword, month, location) == 1
    ensures var v := if Truthy(keyword) then keyword.value else if Truthy(month) then month.value else location.value;
      FollowUp(keyword, month, location).Some? &&
      Contains(FollowUp(keyword, month, location).value, "\"" + v + "\"")
  {
    if Truthy(keyword) {
      ThanksQuotes("the course type \"", keyword.value);
    } else if Truthy(month) {
      ThanksQuotes("the month \"", month.value);
    } else {
      ThanksQuotes("the location \"", location.value);
    }
  }

  const FoundHead := "Sure! I found "
  const DetailsTail := ". Here are the details:"

  /** What follows the count in the sentence for a non-empty result: the keyword and the noun, singular or plural. */
  function CountTail(count: nat, resolvedKeyword: string): string {
    " " + resolvedKeyword + " course" + (if count > 1 then "s" else "") + DetailsTail
  }

  /** Lines 119-125: the first sentence of the reply. */
  function Intro(count: nat, resolvedKeyword: string): string {
    if count > 0 then
      FoundHead + DecimalString(count) + CountTail(count, resolvedKeyword)
    else
      "I'm sorry, I couldn't find any " + resolvedKeyword + " courses matching your criteria."
  }

  /** The number in the intro reads back, with `parseInt`, as the count of results. */
  lemma IntroCountReadsBack(count: nat, kw: string)
    requires count > 0
    ensures |FoundHead| <= |Intro(count, kw)|
    ensures ParseInt(Intro(count, kw)[|FoundHead|..]) == Some(count)
  {
    var d, tail := DecimalString(count), CountTail(count, kw);
    assert Intro(count, kw) == FoundHead + (d + tail);
    DropPrefix(FoundHead, d + tail);
    assert tail[0] == ' ';
    ParseStopsAtNonDigit(count, tail);
  }

  /** The noun is plural exactly when there is more than one result. */
  lemma IntroPlural(count: nat, kw: string)
    requires count > 0
    ensures var s := Intro(count, kw);
      |s| > |DetailsTail| && (s[|s| - |DetailsTail| - 1] == 's' <==> count > 1)
  {
    var s := Intro(count, kw);
    var lead := FoundHead + DecimalString(count) + " " + kw;
    if count > 1 {
      assert s == (lead + " courses") + DetailsTail;
      LastBeforeSuffix(lead + " courses", DetailsTail);
    } else {
      assert s == (lead + " course") + DetailsTail;
      LastBeforeSuffix(lead + " course", DetailsTail);
    }
  }

  /** No results give the apology, which names the keyword. */
  lemma IntroApology(kw: string)
    ensures Intro(0, kw)[..|"I'm sorry"|] == "I'm sorry"
    ensures Contains(Intro(0, kw), kw)
  {
    ContainsMiddle("I'm sorry, I couldn't find any ", kw, " courses matching your criteria.");
  }

  // ---------------------------------------------------------------------
  // Line 113: the keyword the handler searches for and names in the intro

  /** `table[k]` read as a dictionary from index `i` on: the value of the entry whose key is `k`. */
  function ValueOf(table: seq<(string, string)>, k: string, i: nat): (r: Option<string>)
    requires i <= |table|
    ensures r.Some? ==> exists j :: i <= j < |table| && table[j].0 == k && r.value == table[j].1
    ensures r.None? ==> forall j :: i <= j < |table| ==> table[j].0 != k
    decreases |table| - i
  {
    if i == |table| then None
    else if table[i].0 == k then Some(table[i].1)
    else ValueOf(table, k, i + 1)
  }

  /**
   * `keywordSynonyms[keyword?.toLowerCase()] || keyword`: an exact key,
   * ignoring case but not spaces, becomes the full name; anything else is
   * passed on as given. An absent keyword stays absent (`undefined`).
   */
  function HandlerKeyword(keyword: Option<string>): (r: Option<string>)
    ensures r.None? <==> keyword.None?
    ensures r.Some? ==>
      (exists j :: 0 <= j < |AskSynonyms| && AskSynonyms[j].0 == Lower(keyword.value) && r.value == AskSynonyms[j].1) ||
      ((forall j :: 0 <= j < |AskSynonyms| ==> AskSynonyms[j].0 != Lower(keyword.value)) && r.value == keyword.value)
  {
    if keyword.None? then None
    else
      var full := ValueOf(AskSynonyms, Lower(keyword.value), 0);
      if full.Some? && full.value != "" then full else keyword
  }

  /** An upper-case abbreviation is looked up too: "TWC" is named by its full title. */
  lemma HandlerKeywordTwc()
    ensures HandlerKeyword(Some("TWC")) == Some("Temporary Works Coordinator")
  {
    assert Lower("TWC") == "twc";
    NotContainsLonger("twc", "smsts");
    assert AskSynonyms[0].0 != "twc" && AskSynonyms[1].0 != "twc" && AskSynonyms[2].0 == "twc";
  }

  /** A keyword that is no key, such as "asbestos", is passed on unchanged. */
  lemma HandlerKeywordUnknown()
    ensures HandlerKeyword(Some("asbestos")) == Some("asbestos")
  {
    var k := Lower("asbestos");
    assert |k| == 8;
    forall j | 0 <= j < |AskSynonyms| ensures AskSynonyms[j].0 != k {
      assert |AskSynonyms[j].0| != 8;
    }
  }

  /**
   * Lines 119-125: the intro for `count` results, which the caller supplies,
   * naming the handler's keyword as JavaScript prints it.
   */
  function ReplyIntro(count: nat, keyword: Option<string>): string {
    var kw := HandlerKeyword(keyword);
    Intro(count, if kw.Some? then kw.value else "undefined")
  }

  /** Two filled slots without a keyword give an intro naming "undefined" courses. */
  lemma IntroWithoutKeyword(count: nat)
    ensures Contains(ReplyIntro(count, None), "undefined")
  {
    var kw := "undefined";
    assert ReplyIntro(count, None) == Intro(count, kw);
    if count > 0 {
      var lead := FoundHead + DecimalString(count) + " ";
      var rest := " course" + (if count > 1 then "s" else "") + DetailsTail;
      assert CountTail(count, kw) == " " + kw + rest;
      assert Intro(count, kw) == lead + kw + rest;
      ContainsMiddle(lead, kw, rest);
    } else {
      IntroApology(kw);
    }
  }
}
