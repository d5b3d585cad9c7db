/**
 * `detectSortKey` of lib/sortTriggers.js: the first key of an ordered table
 * whose trigger phrases occur in the normalised message.
 */
module SortTriggers {
  import opened Wrappers
  import opened Strings
  import opened Normalize

  /** An ordered table of (key, trigger phrases), in declaration order. */
  type Table = seq<(string, seq<string>)>

  /** The `sortTriggers` table. */
  const Triggers: Table := [
    ("cheapest", ["cheapest", "lowest price", "low cost", "least expensive"]),
    ("expensive", ["most expensive", "highest price", "premium", "expensive course"]),
    ("soonest", ["soonest", "earliest", "first available", "next one"]),
    ("latest", ["latest", "last one", "latest date"]),
    ("shortest", ["shortest", "least days", "minimum duration"]),
    ("longest", ["longest", "maximum duration", "many days"]),
    ("most spaces", ["most spaces", "more availability", "more seats"]),
    ("least spaces", ["least spaces", "almost full", "low availability"])
  ]

  /** Some phrase of `phrases` occurs in `t`. */
  predicate Matches(t: string, phrases: seq<string>) {
    exists j :: 0 <= j < |phrases| && Contains(t, phrases[j])
  }

  /** `phrases.some(p => t.includes(p))`, scanning from index `j`. */
  predicate SomeFrom(t: string, phrases: seq<string>, j: nat)
    decreases |phrases| - j
  {
    j < |phrases| && (Contains(t, phrases[j]) || SomeFrom(t, phrases, j + 1))
  }

  lemma {:induction false} SomeFromIff(t: string, phrases: seq<string>, j: nat)
    ensures SomeFrom(t, phrases, j) <==> exists k :: j <= k < |phrases| && Contains(t, phrases[k])
    decreases |phrases| - j
  {
    if j < |phrases| {
      SomeFromIff(t, phrases, j + 1);
      if exists k :: j <= k < |phrases| && Contains(t, phrases[k]) {
        var k :| j <= k < |phrases| && Contains(t, phrases[k]);
        if k > j {
          assert SomeFrom(t, phrases, j + 1);
        }
      }
    }
  }

  /** The loop over `Object.entries(table)` from entry `i`: the first key with a matching phrase. */
  function FirstKey(t: string, table: Table, i: nat): Option<string>
    requires i <= |table|
    decreases |table| - i
  {
    if i == |table| then None
    else if SomeFrom(t, table[i].1, 0) then Some(table[i].0)
    else FirstKey(t, table, i + 1)
  }

  /** No entry in `table[i..k]` matches. */
  predicate NoneBefore(t: string, table: Table, i: nat, k: nat)
    requires i <= k <= |table|
  {
    forall j :: i <= j < k ==> !Matches(t, table[j].1)
  }

  /**
   * The scan's result: None exactly when no entry matches; otherwise the key
   * of a matching entry with no matching entry before it.
   */
  lemma {:induction false} FirstKeySpec(t: string, table: Table, i: nat)
    requires i <= |table|
    ensures FirstKey(t, table, i).None? <==> NoneBefore(t, table, i, |table|)
    ensures FirstKey(t, table, i).Some? ==>
      exists k :: i <= k < |table| && table[k].0 == FirstKey(t, table, i).value
        && Matches(t, table[k].1) && NoneBefore(t, table, i, k)
    decreases |table| - i
  {
    if i < |table| {
      SomeFromIff(t, table[i].1, 0);
      FirstKeySpec(t, table, i + 1);
      if !SomeFrom(t, table[i].1, 0) {
        if FirstKey(t, table, i).Some? {
          var k :| i + 1 <= k < |table| && table[k].0 == FirstKey(t, table, i).value
            && Matches(t, table[k].1) && NoneBefore(t, table, i + 1, k);
          assert NoneBefore(t, table, i, k);
        }
      } else {
        assert !NoneBefore(t, table, i, |table|) by {
          assert Matches(t, table[i].1);
        }
      }
    }
  }

  /** The first matching entry decides, whatever later entries match. */
  lemma {:induction false} FirstKeyAt(t: string, table: Table, i: nat, k: nat)
    requires i <= k < |table|
    requires Matches(t, table[k].1) && NoneBefore(t, table, i, k)
    ensures FirstKey(t, table, i) == Some(table[k].0)
    decreases k - i
  {
    SomeFromIff(t, table[i].1, 0);
    if i < k {
      FirstKeyAt(t, table, i + 1, k);
    }
  }

  /** An entry with no matching phrase passes the scan on to the next. */
  lemma FirstKeySkip(t: string, table: Table, i: nat)
    requires i < |table| && !Matches(t, table[i].1)
    ensures FirstKey(t, table, i) == FirstKey(t, table, i + 1)
  {
    SomeFromIff(t, table[i].1, 0);
  }

  /** An entry with a matching phrase ends the scan with its key. */
  lemma FirstKeyHit(t: string, table: Table, i: nat)
    requires i < |table| && Matches(t, table[i].1)
    ensures FirstKey(t, table, i) == Some(table[i].0)
  {
    SomeFromIff(t, table[i].1, 0);
  }

  /** `detectSortKey(message)`. */
  function DetectSortKey(message: string): Option<string>
  {
    FirstKey(NormalizeText(message), Triggers, 0)
  }

  /**
   * None exactly when no trigger phrase occurs in the normalised message;
   * otherwise a key of the table one of whose phrases occurs, and no earlier key has one.
   */
  lemma DetectSpec(message: string)
    ensures var t := NormalizeText(message);
      (DetectSortKey(message).None? <==> forall k, j :: 0 <= k < |Triggers| && 0 <= j < |Triggers[k].1| ==> !Contains(t, Triggers[k].1[j]))
      && (DetectSortKey(message).Some? ==>
            exists k :: 0 <= k < |Triggers| && Triggers[k].0 == DetectSortKey(message).value
              && Matches(t, Triggers[k].1) && NoneBefore(t, Triggers, 0, k))
  {
    FirstKeySpec(NormalizeText(message), Triggers, 0);
  }

  /** Case, punctuation and spacing do not matter: a message and its normal form select the same key. */
  lemma DetectNormalized(message: string)
    ensures DetectSortKey(NormalizeText(message)) == DetectSortKey(message)
  {
    NormalizeIdempotent(message);
  }

  // Literal facts about the table, one per lemma: each phrase is its own
  // normal form, and no phrase of an earlier key occurs in it.

  lemma FixedCheapest()
    ensures NormalizeText("cheapest") == "cheapest"
  {
    assert CanonicalFrom("cheapest", 6);
    FixedPoint("cheapest");
  }

  lemma FixedLowestPrice()
    ensures NormalizeText("lowest price") == "lowest price"
  {
    assert CanonicalFrom("lowest price", 6);
    FixedPoint("lowest price");
  }

  lemma FixedLowCost()
    ensures NormalizeText("low cost") == "low cost"
  {
    assert CanonicalFrom("low cost", 6);
    FixedPoint("low cost");
  }

  lemma FixedLeastExpensive()
    ensures NormalizeText("least expensive") == "least expensive"
  {
    assert CanonicalFrom("least expensive", 12);
    assert CanonicalFrom("least expensive", 6);
    FixedPoint("least expensive");
  }

  lemma FixedMostExpensive()
    ensures NormalizeText("most expensive") == "most expensive"
  {
    assert CanonicalFrom("most expensive", 12);
    assert CanonicalFrom("most expensive", 6);
    FixedPoint("most expensive");
  }

  lemma FixedHighestPrice()
    ensures NormalizeText("highest price") == "highest price"
  {
    assert CanonicalFrom("highest price", 12);
    assert CanonicalFrom("highest price", 6);
    FixedPoint("highest price");
  }

  lemma FixedPremium()
    ensures NormalizeText("premium") == "premium"
  {
    assert CanonicalFrom("premium", 6);
    FixedPoint("premium");
  }

  lemma FixedExpensiveCourse()
    ensures NormalizeText("expensive course") == "expensive course"
  {
    assert CanonicalFrom("expensive course", 12);
    assert CanonicalFrom("expensive course", 6);
    FixedPoint("expensive course");
  }

  lemma FixedSoonest()
    ensures NormalizeText("soonest") == "soonest"
  {
    assert CanonicalFrom("soonest", 6);
    FixedPoint("soonest");
  }

  lemma FixedEarliest()
    ensures NormalizeText("earliest") == "earliest"
  {
    assert CanonicalFrom("earliest", 6);
    FixedPoint("earliest");
  }

  lemma FixedFirstAvailable()
    ensures NormalizeText("first available") == "first available"
  {
    assert CanonicalFrom("first available", 12);
    assert CanonicalFrom("first available", 6);
    FixedPoint("first available");
  }

  lemma FixedNextOne()
    ensures NormalizeText("next one") == "next one"
  {
    assert CanonicalFrom("next one", 6);
    FixedPoint("next one");
  }

  lemma FixedLatest()
    ensures NormalizeText("latest") == "latest"
  {
    FixedPoint("latest");
  }

  lemma FixedLastOne()
    ensures NormalizeText("last one") == "last one"
  {
    assert CanonicalFrom("last one", 6);
    FixedPoint("last one");
  }

  lemma FixedLatestDate()
    ensures NormalizeText("latest date") == "latest date"
  {
    assert CanonicalFrom("latest date", 6);
    FixedPoint("latest date");
  }

  lemma FixedShortest()
    ensures NormalizeText("shortest") == "shortest"
  {
    assert CanonicalFrom("shortest", 6);
    FixedPoint("shortest");
  }

  lemma FixedLeastDays()
    ensures NormalizeText("least days") == "least days"
  {
    assert CanonicalFrom("least days", 6);
    FixedPoint("least days");
  }

  lemma FixedMinimumDuration()
    ensures NormalizeText("minimum duration") == "minimum duration"
  {
    assert CanonicalFrom("minimum duration", 12);
    assert CanonicalFrom("minimum duration", 6);
    FixedPoint("minimum duration");
  }

  lemma FixedLongest()
    ensures NormalizeText("longest") == "longest"
  {
    assert CanonicalFrom("longest", 6);
    FixedPoint("longest");
  }

  lemma FixedMaximumDuration()
    ensures NormalizeText("maximum duration") == "maximum duration"
  {
    assert CanonicalFrom("maximum duration", 12);
    assert CanonicalFrom("maximum duration", 6);
    FixedPoint("maximum duration");
  }

  lemma FixedManyDays()
    ensures NormalizeText("many days") == "many days"
  {
    assert CanonicalFrom("many days", 6);
    FixedPoint("many days");
  }

  lemma FixedMostSpaces()
    ensures NormalizeText("most spaces") == "most spaces"
  {
    assert CanonicalFrom("most spaces", 6);
    FixedPoint("most spaces");
  }

  lemma FixedMoreAvailability()
    ensures NormalizeText("more availability") == "more availability"
  {
    assert CanonicalFrom("more availability", 12);
    assert CanonicalFrom("more availability", 6);
    FixedPoint("more availability");
  }

  lemma FixedMoreSeats()
    ensures NormalizeText("more seats") == "more seats"
  {
    assert CanonicalFrom("more seats", 6);
    FixedPoint("more seats");
  }

  lemma FixedLeastSpaces()
    ensures NormalizeText("least spaces") == "least spaces"
  {
    assert CanonicalFrom("least spaces", 6);
    FixedPoint("least spaces");
  }

  lemma FixedAlmostFull()
    ensures NormalizeText("almost full") == "almost full"
  {
    assert CanonicalFrom("almost full", 6);
    FixedPoint("almost full");
  }

  lemma FixedLowAvailability()
    ensures NormalizeText("low availability") == "low availability"
  {
    assert CanonicalFrom("low availability", 12);
    assert CanonicalFrom("low availability", 6);
    FixedPoint("low availability");
  }

  lemma SelectsCheapest()
    ensures FirstKey("cheapest", Triggers, 0) == Some("cheapest")
  {
    assert Triggers[0].1[0] == "cheapest";
    ContainsSelf("cheapest");
    FirstKeyHit("cheapest", Triggers, 0);
  }

  lemma SelectsLowestPrice()
    ensures FirstKey("lowest price", Triggers, 0) == Some("cheapest")
  {
    assert Triggers[0].1[1] == "lowest price";
    ContainsSelf("lowest price");
    FirstKeyHit("lowest price", Triggers, 0);
  }

  lemma SelectsLowCost()
    ensures FirstKey("low cost", Triggers, 0) == Some("cheapest")
  {
    assert Triggers[0].1[2] == "low cost";
    ContainsSelf("low cost");
    FirstKeyHit("low cost", Triggers, 0);
  }

  lemma SelectsLeastExpensive()
    ensures FirstKey("least expensive", Triggers, 0) == Some("cheapest")
  {
    assert Triggers[0].1[3] == "least expensive";
    ContainsSelf("least expensive");
    FirstKeyHit("least expensive", Triggers, 0);
  }

  lemma MostExpensiveMissesCheapest()
    ensures !Matches("most expensive", Triggers[0].1)
  {
    assert !Contains("most expensive", "cheapest") by { NotContainsChar("most expensive", "cheapest", 3); }
    assert !Contains("most expensive", "lowest price") by { NotContainsChar("most expensive", "lowest price", 10); }
    assert !Contains("most expensive", "low cost") by { NotContainsChar("most expensive", "low cost", 4); }
    assert !Contains("most expensive", "least expensive") by { NotContainsChar("most expensive", "least expensive", 2); }
  }

  lemma SelectsMostExpensive()
    ensures FirstKey("most expensive", Triggers, 0) == Some("expensive")
  {
    MostExpensiveMissesCheapest();
    FirstKeySkip("most expensive", Triggers, 0);
    assert Triggers[1].1[0] == "most expensive";
    ContainsSelf("most expensive");
    FirstKeyHit("most expensive", Triggers, 1);
  }

  lemma HighestPriceMissesCheapest()
    ensures !Matches("highest price", Triggers[0].1)
  {
    assert !Contains("highest price", "cheapest") by { NotContainsChar("highest price", "cheapest", 3); }
    assert !Contains("highest price", "lowest price") by { NotContainsChar("highest price", "lowest price", 2); }
    assert !Contains("highest price", "low cost") by { NotContainsChar("highest price", "low cost", 5); }
    assert !Contains("highest price", "least expensive") by { NotContainsChar("highest price", "least expensive", 13); }
  }

  lemma SelectsHighestPrice()
    ensures FirstKey("highest price", Triggers, 0) == Some("expensive")
  {
    HighestPriceMissesCheapest();
    FirstKeySkip("highest price", Triggers, 0);
    assert Triggers[1].1[1] == "highest price";
    ContainsSelf("highest price");
    FirstKeyHit("highest price", Triggers, 1);
  }

  lemma PremiumMissesCheapest()
    ensures !Matches("premium", Triggers[0].1)
  {
    assert !Contains("premium", "cheapest") by { NotContainsChar("premium", "cheapest", 7); }
    assert !Contains("premium", "lowest price") by { NotContainsChar("premium", "lowest price", 10); }
    assert !Contains("premium", "low cost") by { NotContainsChar("premium", "low cost", 7); }
    assert !Contains("premium", "least expensive") by { NotContainsChar("premium", "least expensive", 13); }
  }

  lemma SelectsPremium()
    ensures FirstKey("premium", Triggers, 0) == Some("expensive")
  {
    PremiumMissesCheapest();
    FirstKeySkip("premium", Triggers, 0);
    assert Triggers[1].1[2] == "premium";
    ContainsSelf("premium");
    FirstKeyHit("premium", Triggers, 1);
  }

  lemma ExpensiveCourseMissesCheapest()
    ensures !Matches("expensive course", Triggers[0].1)
  {
    assert !Contains("expensive course", "cheapest") by { NotContainsChar("expensive course", "cheapest", 7); }
    assert !Contains("expensive course", "lowest price") by { NotContainsChar("expensive course", "lowest price", 5); }
    assert !Contains("expensive course", "low cost") by { NotContainsChar("expensive course", "low cost", 7); }
    assert !Contains("expensive course", "least expensive") by { NotContainsChar("expensive course", "least expensive", 4); }
  }

  lemma SelectsExpensiveCourse()
    ensures FirstKey("expensive course", Triggers, 0) == Some("expensive")
  {
    ExpensiveCourseMissesCheapest();
    FirstKeySkip("expensive course", Triggers, 0);
    assert Triggers[1].1[3] == "expensive course";
    ContainsSelf("expensive course");
    FirstKeyHit("expensive course", Triggers, 1);
  }

  lemma SoonestMissesCheapest()
    ensures !Matches("soonest", Triggers[0].1)
  {
    assert !Contains("soonest", "cheapest") by { NotContainsChar("soonest", "cheapest", 4); }
    assert !Contains("soonest", "lowest price") by { NotContainsChar("soonest", "lowest price", 10); }
    assert !Contains("soonest", "low cost") by { NotContainsChar("soonest", "low cost", 4); }
    assert !Contains("soonest", "least expensive") by { NotContainsChar("soonest", "least expensive", 13); }
  }

  lemma SoonestMissesExpensive()
    ensures !Matches("soonest", Triggers[1].1)
  {
    assert !Contains("soonest", "most expensive") by { NotContainsChar("soonest", "most expensive", 12); }
    assert !Contains("soonest", "highest price") by { NotContainsChar("soonest", "highest price", 11); }
    assert !Contains("soonest", "premium") by { NotContainsChar("soonest", "premium", 6); }
    assert !Contains("soonest", "expensive course") by { NotContainsChar("soonest", "expensive course", 13); }
  }

  lemma SelectsSoonest()
    ensures FirstKey("soonest", Triggers, 0) == Some("soonest")
  {
    SoonestMissesCheapest();
    FirstKeySkip("soonest", Triggers, 0);
    SoonestMissesExpensive();
    FirstKeySkip("soonest", Triggers, 1);
    assert Triggers[2].1[0] == "soonest";
    ContainsSelf("soonest");
    FirstKeyHit("soonest", Triggers, 2);
  }

  lemma EarliestMissesCheapest()
    ensures !Matches("earliest", Triggers[0].1)
  {
    assert !Contains("earliest", "cheapest") by { NotContainsChar("earliest", "cheapest", 4); }
    assert !Contains("earliest", "lowest price") by { NotContainsChar("earliest", "lowest price", 10); }
    assert !Contains("earliest", "low cost") by { NotContainsChar("earliest", "low cost", 5); }
    assert !Contains("earliest", "least expensive") by { NotContainsChar("earliest", "least expensive", 13); }
  }

  lemma EarliestMissesExpensive()
    ensures !Matches("earliest", Triggers[1].1)
  {
    assert !Contains("earliest", "most expensive") by { NotContainsChar("earliest", "most expensive", 12); }
    assert !Contains("earliest", "highest price") by { NotContainsChar("earliest", "highest price", 11); }
    assert !Contains("earliest", "premium") by { NotContainsChar("earliest", "premium", 6); }
    assert !Contains("earliest", "expensive course") by { NotContainsChar("earliest", "expensive course", 12); }
  }

  lemma SelectsEarliest()
    ensures FirstKey("earliest", Triggers, 0) == Some("soonest")
  {
    EarliestMissesCheapest();
    FirstKeySkip("earliest", Triggers, 0);
    EarliestMissesExpensive();
    FirstKeySkip("earliest", Triggers, 1);
    assert Triggers[2].1[1] == "earliest";
    ContainsSelf("earliest");
    FirstKeyHit("earliest", Triggers, 2);
  }

  lemma FirstAvailableMissesCheapest()
    ensures !Matches("first available", Triggers[0].1)
  {
    assert !Contains("first available", "cheapest") by { NotContainsChar("first available", "cheapest", 4); }
    assert !Contains("first available", "lowest price") by { NotContainsChar("first available", "lowest price", 10); }
    assert !Contains("first available", "low cost") by { NotContainsChar("first available", "low cost", 5); }
    assert !Contains("first available", "least expensive") by { NotContainsChar("first available", "least expensive", 10); }
  }

  lemma FirstAvailableMissesExpensive()
    ensures !Matches("first available", Triggers[1].1)
  {
    assert !Contains("first available", "most expensive") by { NotContainsChar("first available", "most expensive", 9); }
    assert !Contains("first available", "highest price") by { NotContainsChar("first available", "highest price", 11); }
    assert !Contains("first available", "premium") by { NotContainsChar("first available", "premium", 6); }
    assert !Contains("first available", "expensive course") by { NotContainsChar("first available", "expensive course", 12); }
  }

  lemma SelectsFirstAvailable()
    ensures FirstKey("first available", Triggers, 0) == Some("soonest")
  {
    FirstAvailableMissesCheapest();
    FirstKeySkip("first available", Triggers, 0);
    FirstAvailableMissesExpensive();
    FirstKeySkip("first available", Triggers, 1);
    assert Triggers[2].1[2] == "first available";
    ContainsSelf("first available");
    FirstKeyHit("first available", Triggers, 2);
  }

  lemma NextOneMissesCheapest()
    ensures !Matches("next one", Triggers[0].1)
  {
    assert !Contains("next one", "cheapest") by { NotContainsChar("next one", "cheapest", 6); }
    assert !Contains("next one", "lowest price") by { NotContainsChar("next one", "lowest price", 10); }
    assert !Contains("next one", "low cost") by { NotContainsChar("next one", "low cost", 6); }
    assert !Contains("next one", "least expensive") by { NotContainsChar("next one", "least expensive", 13); }
  }

  lemma NextOneMissesExpensive()
    ensures !Matches("next one", Triggers[1].1)
  {
    assert !Contains("next one", "most expensive") by { NotContainsChar("next one", "most expensive", 12); }
    assert !Contains("next one", "highest price") by { NotContainsChar("next one", "highest price", 11); }
    assert !Contains("next one", "premium") by { NotContainsChar("next one", "premium", 6); }
    assert !Contains("next one", "expensive course") by { NotContainsChar("next one", "expensive course", 14); }
  }

  lemma SelectsNextOne()
    ensures FirstKey("next one", Triggers, 0) == Some("soonest")
  {
    NextOneMissesCheapest();
    FirstKeySkip("next one", Triggers, 0);
    NextOneMissesExpensive();
    FirstKeySkip("next one", Triggers, 1);
    assert Triggers[2].1[3] == "next one";
    ContainsSelf("next one");
    FirstKeyHit("next one", Triggers, 2);
  }

  lemma LatestMissesCheapest()
    ensures !Matches("latest", Triggers[0].1)
  {
    assert !Contains("latest", "cheapest") by { NotContainsChar("latest", "cheapest", 4); }
    assert !Contains("latest", "lowest price") by { NotContainsChar("latest", "lowest price", 10); }
    assert !Contains("latest", "low cost") by { NotContainsChar("latest", "low cost", 5); }
    assert !Contains("latest", "least expensive") by { NotContainsChar("latest", "least expensive", 13); }
  }

  lemma LatestMissesExpensive()
    ensures !Matches("latest", Triggers[1].1)
  {
    assert !Contains("latest", "most expensive") by { NotContainsChar("latest", "most expensive", 12); }
    assert !Contains("latest", "highest price") by { NotContainsChar("latest", "highest price", 11); }
    assert !Contains("latest", "premium") by { NotContainsChar("latest", "premium", 6); }
    assert !Contains("latest", "expensive course") by { NotContainsChar("latest", "expensive course", 13); }
  }

  lemma LatestMissesSoonest()
    ensures !Matches("latest", Triggers[2].1)
  {
    assert !Contains("latest", "soonest") by { NotContainsChar("latest", "soonest", 3); }
    assert !Contains("latest", "earliest") by { NotContainsChar("latest", "earliest", 4); }
    assert !Contains("latest", "first available") by { NotContainsChar("latest", "first available", 12); }
    assert !Contains("latest", "next one") by { NotContainsChar("latest", "next one", 6); }
  }

  lemma SelectsLatest()
    ensures FirstKey("latest", Triggers, 0) == Some("latest")
  {
    LatestMissesCheapest();
    FirstKeySkip("latest", Triggers, 0);
    LatestMissesExpensive();
    FirstKeySkip("latest", Triggers, 1);
    LatestMissesSoonest();
    FirstKeySkip("latest", Triggers, 2);
    assert Triggers[3].1[0] == "latest";
    ContainsSelf("latest");
    FirstKeyHit("latest", Triggers, 3);
  }

  lemma LastOneMissesCheapest()
    ensures !Matches("last one", Triggers[0].1)
  {
    assert !Contains("last one", "cheapest") by { NotContainsChar("last one", "cheapest", 4); }
    assert !Contains("last one", "lowest price") by { NotContainsChar("last one", "lowest price", 10); }
    assert !Contains("last one", "low cost") by { NotContainsChar("last one", "low cost", 4); }
    assert !Contains("last one", "least expensive") by { NotContainsChar("last one", "least expensive", 13); }
  }

  lemma LastOneMissesExpensive()
    ensures !Matches("last one", Triggers[1].1)
  {
    assert !Contains("last one", "most expensive") by { NotContainsChar("last one", "most expensive", 12); }
    assert !Contains("last one", "highest price") by { NotContainsChar("last one", "highest price", 11); }
    assert !Contains("last one", "premium") by { NotContainsChar("last one", "premium", 6); }
    assert !Contains("last one", "expensive course") by { NotContainsChar("last one", "expensive course", 13); }
  }

  lemma LastOneMissesSoonest()
    ensures !Matches("last one", Triggers[2].1)
  {
    LastOneLacksSoonest();
    assert !Contains("last one", "earliest") by { NotContainsChar("last one", "earliest", 4); }
    assert !Contains("last one", "first available") by { NotContainsChar("last one", "first available", 12); }
    assert !Contains("last one", "next one") by { NotContainsChar("last one", "next one", 2); }
  }

  lemma SelectsLastOne()
    ensures FirstKey("last one", Triggers, 0) == Some("latest")
  {
    LastOneMissesCheapest();
    FirstKeySkip("last one", Triggers, 0);
    LastOneMissesExpensive();
    FirstKeySkip("last one", Triggers, 1);
    LastOneMissesSoonest();
    FirstKeySkip("last one", Triggers, 2);
    assert Triggers[3].1[1] == "last one";
    ContainsSelf("last one");
    FirstKeyHit("last one", Triggers, 3);
  }

  lemma LatestDateMissesCheapest()
    ensures !Matches("latest date", Triggers[0].1)
  {
    assert !Contains("latest date", "cheapest") by { NotContainsChar("latest date", "cheapest", 4); }
    assert !Contains("latest date", "lowest price") by { NotContainsChar("latest date", "lowest price", 10); }
    assert !Contains("latest date", "low cost") by { NotContainsChar("latest date", "low cost", 5); }
    assert !Contains("latest date", "least expensive") by { NotContainsChar("latest date", "least expensive", 13); }
  }

  lemma LatestDateMissesExpensive()
    ensures !Matches("latest date", Triggers[1].1)
  {
    assert !Contains("latest date", "most expensive") by { NotContainsChar("latest date", "most expensive", 12); }
    assert !Contains("latest date", "highest price") by { NotContainsChar("latest date", "highest price", 11); }
    assert !Contains("latest date", "premium") by { NotContainsChar("latest date", "premium", 6); }
    assert !Contains("latest date", "expensive course") by { NotContainsChar("latest date", "expensive course", 13); }
  }

  lemma LatestDateMissesSoonest()
    ensures !Matches("latest date", Triggers[2].1)
  {
    assert !Contains("latest date", "soonest") by { NotContainsChar("latest date", "soonest", 3); }
    assert !Contains("latest date", "earliest") by { NotContainsChar("latest date", "earliest", 4); }
    assert !Contains("latest date", "first available") by { NotContainsChar("latest date", "first available", 12); }
    assert !Contains("latest date", "next one") by { NotContainsChar("latest date", "next one", 6); }
  }

  lemma SelectsLatestDate()
    ensures FirstKey("latest date", Triggers, 0) == Some("latest")
  {
    LatestDateMissesCheapest();
    FirstKeySkip("latest date", Triggers, 0);
    LatestDateMissesExpensive();
    FirstKeySkip("latest date", Triggers, 1);
    LatestDateMissesSoonest();
    FirstKeySkip("latest date", Triggers, 2);
    assert Triggers[3].1[2] == "latest date";
    ContainsSelf("latest date");
    FirstKeyHit("latest date", Triggers, 3);
  }

  lemma ShortestMissesCheapest()
    ensures !Matches("shortest", Triggers[0].1)
  {
    assert !Contains("shortest", "cheapest") by { NotContainsChar("shortest", "cheapest", 4); }
    assert !Contains("shortest", "lowest price") by { NotContainsChar("shortest", "lowest price", 10); }
    assert !Contains("shortest", "low cost") by { NotContainsChar("shortest", "low cost", 4); }
    assert !Contains("shortest", "least expensive") by { NotContainsChar("shortest", "least expensive", 13); }
  }

  lemma ShortestMissesExpensive()
    ensures !Matches("shortest", Triggers[1].1)
  {
    assert !Contains("shortest", "most expensive") by { NotContainsChar("shortest", "most expensive", 12); }
    assert !Contains("shortest", "highest price") by { NotContainsChar("shortest", "highest price", 11); }
    assert !Contains("shortest", "premium") by { NotContainsChar("shortest", "premium", 6); }
    assert !Contains("shortest", "expensive course") by { NotContainsChar("shortest", "expensive course", 12); }
  }

  lemma ShortestMissesSoonest()
    ensures !Matches("shortest", Triggers[2].1)
  {
    assert !Contains("shortest", "soonest") by { NotContainsChar("shortest", "soonest", 3); }
    assert !Contains("shortest", "earliest") by { NotContainsChar("shortest", "earliest", 4); }
    assert !Contains("shortest", "first available") by { NotContainsChar("shortest", "first available", 13); }
    assert !Contains("shortest", "next one") by { NotContainsChar("shortest", "next one", 6); }
  }

  lemma ShortestMissesLatest()
    ensures !Matches("shortest", Triggers[3].1)
  {
    assert !Contains("shortest", "latest") by { NotContainsChar("shortest", "latest", 1); }
    assert !Contains("shortest", "last one") by { NotContainsChar("shortest", "last one", 6); }
    assert !Contains("shortest", "latest date") by { NotContainsChar("shortest", "latest date", 8); }
  }

  lemma SelectsShortest()
    ensures FirstKey("shortest", Triggers, 0) == Some("shortest")
  {
    ShortestMissesCheapest();
    FirstKeySkip("shortest", Triggers, 0);
    ShortestMissesExpensive();
    FirstKeySkip("shortest", Triggers, 1);
    ShortestMissesSoonest();
    FirstKeySkip("shortest", Triggers, 2);
    ShortestMissesLatest();
    FirstKeySkip("shortest", Triggers, 3);
    assert Triggers[4].1[0] == "shortest";
    ContainsSelf("shortest");
    FirstKeyHit("shortest", Triggers, 4);
  }

  lemma LeastDaysMissesCheapest()
    ensures !Matches("least days", Triggers[0].1)
  {
    assert !Contains("least days", "cheapest") by { NotContainsChar("least days", "cheapest", 4); }
    assert !Contains("least days", "lowest price") by { NotContainsChar("least days", "lowest price", 10); }
    assert !Contains("least days", "low cost") by { NotContainsChar("least days", "low cost", 5); }
    assert !Contains("least days", "least expensive") by { NotContainsChar("least days", "least expensive", 13); }
  }

  lemma LeastDaysMissesExpensive()
    ensures !Matches("least days", Triggers[1].1)
  {
    assert !Contains("least days", "most expensive") by { NotContainsChar("least days", "most expensive", 12); }
    assert !Contains("least days", "highest price") by { NotContainsChar("least days", "highest price", 11); }
    assert !Contains("least days", "premium") by { NotContainsChar("least days", "premium", 6); }
    assert !Contains("least days", "expensive course") by { NotContainsChar("least days", "expensive course", 13); }
  }

  lemma LeastDaysMissesSoonest()
    ensures !Matches("least days", Triggers[2].1)
  {
    assert !Contains("least days", "soonest") by { NotContainsChar("least days", "soonest", 3); }
    assert !Contains("least days", "earliest") by { NotContainsChar("least days", "earliest", 4); }
    assert !Contains("least days", "first available") by { NotContainsChar("least days", "first available", 12); }
    assert !Contains("least days", "next one") by { NotContainsChar("least days", "next one", 6); }
  }

  lemma LeastDaysMissesLatest()
    ensures !Matches("least days", Triggers[3].1)
  {
    LeastDaysLacksLatest();
    assert !Contains("least days", "last one") by { NotContainsChar("least days", "last one", 6); }
    assert !Contains("least days", "latest date") by { NotContainsLonger("least days", "latest date"); }
  }

  lemma SelectsLeastDays()
    ensures FirstKey("least days", Triggers, 0) == Some("shortest")
  {
    LeastDaysMissesCheapest();
    FirstKeySkip("least days", Triggers, 0);
    LeastDaysMissesExpensive();
    FirstKeySkip("least days", Triggers, 1);
    LeastDaysMissesSoonest();
    FirstKeySkip("least days", Triggers, 2);
    LeastDaysMissesLatest();
    FirstKeySkip("least days", Triggers, 3);
    assert Triggers[4].1[1] == "least days";
    ContainsSelf("least days");
    FirstKeyHit("least days", Triggers, 4);
  }

  lemma MinimumDurationMissesCheapest()
    ensures !Matches("minimum duration", Triggers[0].1)
  {
    assert !Contains("minimum duration", "cheapest") by { NotContainsChar("minimum duration", "cheapest", 6); }
    assert !Contains("minimum duration", "lowest price") by { NotContainsChar("minimum duration", "lowest price", 11); }
    assert !Contains("minimum duration", "low cost") by { NotContainsChar("minimum duration", "low cost", 6); }
    assert !Contains("minimum duration", "least expensive") by { NotContainsChar("minimum duration", "least expensive", 14); }
  }

  lemma MinimumDurationMissesExpensive()
    ensures !Matches("minimum duration", Triggers[1].1)
  {
    assert !Contains("minimum duration", "most expensive") by { NotContainsChar("minimum duration", "most expensive", 13); }
    assert !Contains("minimum duration", "highest price") by { NotContainsChar("minimum duration", "highest price", 12); }
    assert !Contains("minimum duration", "premium") by { NotContainsChar("minimum duration", "premium", 2); }
    assert !Contains("minimum duration", "expensive course") by { NotContainsChar("minimum duration", "expensive course", 15); }
  }

  lemma MinimumDurationMissesSoonest()
    ensures !Matches("minimum duration", Triggers[2].1)
  {
    assert !Contains("minimum duration", "soonest") by { NotContainsChar("minimum duration", "soonest", 5); }
    assert !Contains("minimum duration", "earliest") by { NotContainsChar("minimum duration", "earliest", 6); }
    assert !Contains("minimum duration", "first available") by { NotContainsChar("minimum duration", "first available", 14); }
    assert !Contains("minimum duration", "next one") by { NotContainsChar("minimum duration", "next one", 7); }
  }

  lemma MinimumDurationMissesLatest()
    ensures !Matches("minimum duration", Triggers[3].1)
  {
    assert !Contains("minimum duration", "latest") by { NotContainsChar("minimum duration", "latest", 4); }
    assert !Contains("minimum duration", "last one") by { NotContainsChar("minimum duration", "last one", 7); }
    assert !Contains("minimum duration", "latest date") by { NotContainsChar("minimum duration", "latest date", 10); }
  }

  lemma SelectsMinimumDuration()
    ensures FirstKey("minimum duration", Triggers, 0) == Some("shortest")
  {
    MinimumDurationMissesCheapest();
    FirstKeySkip("minimum duration", Triggers, 0);
    MinimumDurationMissesExpensive();
    FirstKeySkip("minimum duration", Triggers, 1);
    MinimumDurationMissesSoonest();
    FirstKeySkip("minimum duration", Triggers, 2);
    MinimumDurationMissesLatest();
    FirstKeySkip("minimum duration", Triggers, 3);
    assert Triggers[4].1[2] == "minimum duration";
    ContainsSelf("minimum duration");
    FirstKeyHit("minimum duration", Triggers, 4);
  }

  lemma LongestMissesCheapest()
    ensures !Matches("longest", Triggers[0].1)
  {
    assert !Contains("longest", "cheapest") by { NotContainsChar("longest", "cheapest", 4); }
    assert !Contains("longest", "lowest price") by { NotContainsChar("longest", "lowest price", 10); }
    assert !Contains("longest", "low cost") by { NotContainsChar("longest", "low cost", 4); }
    assert !Contains("longest", "least expensive") by { NotContainsChar("longest", "least expensive", 13); }
  }

  lemma LongestMissesExpensive()
    ensures !Matches("longest", Triggers[1].1)
  {
    assert !Contains("longest", "most expensive") by { NotContainsChar("longest", "most expensive", 12); }
    assert !Contains("longest", "highest price") by { NotContainsChar("longest", "highest price", 11); }
    assert !Contains("longest", "premium") by { NotContainsChar("longest", "premium", 6); }
    assert !Contains("longest", "expensive course") by { NotContainsChar("longest", "expensive course", 13); }
  }

  lemma LongestMissesSoonest()
    ensures !Matches("longest", Triggers[2].1)
  {
    LongestLacksSoonest();
    assert !Contains("longest", "earliest") by { NotContainsChar("longest", "earliest", 4); }
    assert !Contains("longest", "first available") by { NotContainsChar("longest", "first available", 12); }
    assert !Contains("longest", "next one") by { NotContainsChar("longest", "next one", 4); }
  }

  lemma LongestMissesLatest()
    ensures !Matches("longest", Triggers[3].1)
  {
    assert !Contains("longest", "latest") by { NotContainsChar("longest", "latest", 1); }
    assert !Contains("longest", "last one") by { NotContainsChar("longest", "last one", 4); }
    assert !Contains("longest", "latest date") by { NotContainsChar("longest", "latest date", 8); }
  }

  lemma LongestMissesShortest()
    ensures !Matches("longest", Triggers[4].1)
  {
    assert !Contains("longest", "shortest") by { NotContainsChar("longest", "shortest", 3); }
    assert !Contains("longest", "least days") by { NotContainsChar("longest", "least days", 8); }
    assert !Contains("longest", "minimum duration") by { NotContainsChar("longest", "minimum duration", 13); }
  }

  lemma SelectsLongest()
    ensures FirstKey("longest", Triggers, 0) == Some("longest")
  {
    LongestMissesCheapest();
    FirstKeySkip("longest", Triggers, 0);
    LongestMissesExpensive();
    FirstKeySkip("longest", Triggers, 1);
    LongestMissesSoonest();
    FirstKeySkip("longest", Triggers, 2);
    LongestMissesLatest();
    FirstKeySkip("longest", Triggers, 3);
    LongestMissesShortest();
    FirstKeySkip("longest", Triggers, 4);
    assert Triggers[5].1[0] == "longest";
    ContainsSelf("longest");
    FirstKeyHit("longest", Triggers, 5);
  }

  lemma MaximumDurationMissesCheapest()
    ensures !Matches("maximum duration", Triggers[0].1)
  {
    assert !Contains("maximum duration", "cheapest") by { NotContainsChar("maximum duration", "cheapest", 6); }
    assert !Contains("maximum duration", "lowest price") by { NotContainsChar("maximum duration", "lowest price", 11); }
    assert !Contains("maximum duration", "low cost") by { NotContainsChar("maximum duration", "low cost", 6); }
    assert !Contains("maximum duration", "least expensive") by { NotContainsChar("maximum duration", "least expensive", 14); }
  }

  lemma MaximumDurationMissesExpensive()
    ensures !Matches("maximum duration", Triggers[1].1)
  {
    assert !Contains("maximum duration", "most expensive") by { NotContainsChar("maximum duration", "most expensive", 13); }
    assert !Contains("maximum duration", "highest price") by { NotContainsChar("maximum duration", "highest price", 12); }
    assert !Contains("maximum duration", "premium") by { NotContainsChar("maximum duration", "premium", 2); }
    assert !Contains("maximum duration", "expensive course") by { NotContainsChar("maximum duration", "expensive course", 15); }
  }

  lemma MaximumDurationMissesSoonest()
    ensures !Matches("maximum duration", Triggers[2].1)
  {
    assert !Contains("maximum duration", "soonest") by { NotContainsChar("maximum duration", "soonest", 5); }
    assert !Contains("maximum duration", "earliest") by { NotContainsChar("maximum duration", "earliest", 6); }
    assert !Contains("maximum duration", "first available") by { NotContainsChar("maximum duration", "first available", 14); }
    assert !Contains("maximum duration", "next one") by { NotContainsChar("maximum duration", "next one", 7); }
  }

  lemma MaximumDurationMissesLatest()
    ensures !Matches("maximum duration", Triggers[3].1)
  {
    assert !Contains("maximum duration", "latest") by { NotContainsChar("maximum duration", "latest", 4); }
    assert !Contains("maximum duration", "last one") by { NotContainsChar("maximum duration", "last one", 7); }
    assert !Contains("maximum duration", "latest date") by { NotContainsChar("maximum duration", "latest date", 10); }
  }

  lemma MaximumDurationMissesShortest()
    ensures !Matches("maximum duration", Triggers[4].1)
  {
    assert !Contains("maximum duration", "shortest") by { NotContainsChar("maximum duration", "shortest", 6); }
    assert !Contains("maximum duration", "least days") by { NotContainsChar("maximum duration", "least days", 9); }
    MaximumDurationLacksMinimumDuration();
  }

  lemma SelectsMaximumDuration()
    ensures FirstKey("maximum duration", Triggers, 0) == Some("longest")
  {
    MaximumDurationMissesCheapest();
    FirstKeySkip("maximum duration", Triggers, 0);
    MaximumDurationMissesExpensive();
    FirstKeySkip("maximum duration", Triggers, 1);
    MaximumDurationMissesSoonest();
    FirstKeySkip("maximum duration", Triggers, 2);
    MaximumDurationMissesLatest();
    FirstKeySkip("maximum duration", Triggers, 3);
    MaximumDurationMissesShortest();
    FirstKeySkip("maximum duration", Triggers, 4);
    assert Triggers[5].1[1] == "maximum duration";
    ContainsSelf("maximum duration");
    FirstKeyHit("maximum duration", Triggers, 5);
  }

  lemma ManyDaysMissesCheapest()
    ensures !Matches("many days", Triggers[0].1)
  {
    assert !Contains("many days", "cheapest") by { NotContainsChar("many days", "cheapest", 7); }
    assert !Contains("many days", "lowest price") by { NotContainsChar("many days", "lowest price", 11); }
    assert !Contains("many days", "low cost") by { NotContainsChar("many days", "low cost", 7); }
    assert !Contains("many days", "least expensive") by { NotContainsChar("many days", "least expensive", 14); }
  }

  lemma ManyDaysMissesExpensive()
    ensures !Matches("many days", Triggers[1].1)
  {
    assert !Contains("many days", "most expensive") by { NotContainsChar("many days", "most expensive", 13); }
    assert !Contains("many days", "highest price") by { NotContainsChar("many days", "highest price", 12); }
    assert !Contains("many days", "premium") by { NotContainsChar("many days", "premium", 5); }
    assert !Contains("many days", "expensive course") by { NotContainsChar("many days", "expensive course", 15); }
  }

  lemma ManyDaysMissesSoonest()
    ensures !Matches("many days", Triggers[2].1)
  {
    assert !Contains("many days", "soonest") by { NotContainsChar("many days", "soonest", 6); }
    assert !Contains("many days", "earliest") by { NotContainsChar("many days", "earliest", 7); }
    assert !Contains("many days", "first available") by { NotContainsChar("many days", "first available", 14); }
    assert !Contains("many days", "next one") by { NotContainsChar("many days", "next one", 7); }
  }

  lemma ManyDaysMissesLatest()
    ensures !Matches("many days", Triggers[3].1)
  {
    assert !Contains("many days", "latest") by { NotContainsChar("many days", "latest", 5); }
    assert !Contains("many days", "last one") by { NotContainsChar("many days", "last one", 7); }
    assert !Contains("many days", "latest date") by { NotContainsChar("many days", "latest date", 10); }
  }

  lemma ManyDaysMissesShortest()
    ensures !Matches("many days", Triggers[4].1)
  {
    assert !Contains("many days", "shortest") by { NotContainsChar("many days", "shortest", 7); }
    assert !Contains("many days", "least days") by { NotContainsChar("many days", "least days", 4); }
    assert !Contains("many days", "minimum duration") by { NotContainsChar("many days", "minimum duration", 14); }
  }

  lemma SelectsManyDays()
    ensures FirstKey("many days", Triggers, 0) == Some("longest")
  {
    ManyDaysMissesCheapest();
    FirstKeySkip("many days", Triggers, 0);
    ManyDaysMissesExpensive();
    FirstKeySkip("many days", Triggers, 1);
    ManyDaysMissesSoonest();
    FirstKeySkip("many days", Triggers, 2);
    ManyDaysMissesLatest();
    FirstKeySkip("many days", Triggers, 3);
    ManyDaysMissesShortest();
    FirstKeySkip("many days", Triggers, 4);
    assert Triggers[5].1[2] == "many days";
    ContainsSelf("many days");
    FirstKeyHit("many days", Triggers, 5);
  }

  lemma MostSpacesMissesCheapest()
    ensures !Matches("most spaces", Triggers[0].1)
  {
    assert !Contains("most spaces", "cheapest") by { NotContainsChar("most spaces", "cheapest", 1); }
    assert !Contains("most spaces", "lowest price") by { NotContainsChar("most spaces", "lowest price", 9); }
    assert !Contains("most spaces", "low cost") by { NotContainsChar("most spaces", "low cost", 2); }
    assert !Contains("most spaces", "least expensive") by { NotContainsChar("most spaces", "least expensive", 13); }
  }

  lemma MostSpacesMissesExpensive()
    ensures !Matches("most spaces", Triggers[1].1)
  {
    assert !Contains("most spaces", "most expensive") by { NotContainsChar("most spaces", "most expensive", 12); }
    assert !Contains("most spaces", "highest price") by { NotContainsChar("most spaces", "highest price", 10); }
    assert !Contains("most spaces", "premium") by { NotContainsChar("most spaces", "premium", 5); }
    assert !Contains("most spaces", "expensive course") by { NotContainsChar("most spaces", "expensive course", 13); }
  }

  lemma MostSpacesMissesSoonest()
    ensures !Matches("most spaces", Triggers[2].1)
  {
    assert !Contains("most spaces", "soonest") by { NotContainsChar("most spaces", "soonest", 3); }
    assert !Contains("most spaces", "earliest") by { NotContainsChar("most spaces", "earliest", 4); }
    assert !Contains("most spaces", "first available") by { NotContainsChar("most spaces", "first available", 13); }
    assert !Contains("most spaces", "next one") by { NotContainsChar("most spaces", "next one", 6); }
  }

  lemma MostSpacesMissesLatest()
    ensures !Matches("most spaces", Triggers[3].1)
  {
    assert !Contains("most spaces", "latest") by { NotContainsChar("most spaces", "latest", 0); }
    assert !Contains("most spaces", "last one") by { NotContainsChar("most spaces", "last one", 6); }
    assert !Contains("most spaces", "latest date") by { NotContainsChar("most spaces", "latest date", 7); }
  }

  lemma MostSpacesMissesShortest()
    ensures !Matches("most spaces", Triggers[4].1)
  {
    assert !Contains("most spaces", "shortest") by { NotContainsChar("most spaces", "shortest", 3); }
    assert !Contains("most spaces", "least days") by { NotContainsChar("most spaces", "least days", 8); }
    assert !Contains("most spaces", "minimum duration") by { NotContainsChar("most spaces", "minimum duration", 15); }
  }

  lemma MostSpacesMissesLongest()
    ensures !Matches("most spaces", Triggers[5].1)
  {
    assert !Contains("most spaces", "longest") by { NotContainsChar("most spaces", "longest", 3); }
    assert !Contains("most spaces", "maximum duration") by { NotContainsChar("most spaces", "maximum duration", 15); }
    assert !Contains("most spaces", "many days") by { NotContainsChar("most spaces", "many days", 7); }
  }

  lemma SelectsMostSpaces()
    ensures FirstKey("most spaces", Triggers, 0) == Some("most spaces")
  {
    MostSpacesMissesCheapest();
    FirstKeySkip("most spaces", Triggers, 0);
    MostSpacesMissesExpensive();
    FirstKeySkip("most spaces", Triggers, 1);
    MostSpacesMissesSoonest();
    FirstKeySkip("most spaces", Triggers, 2);
    MostSpacesMissesLatest();
    FirstKeySkip("most spaces", Triggers, 3);
    MostSpacesMissesShortest();
    FirstKeySkip("most spaces", Triggers, 4);
    MostSpacesMissesLongest();
    FirstKeySkip("most spaces", Triggers, 5);
    assert Triggers[6].1[0] == "most spaces";
    ContainsSelf("most spaces");
    FirstKeyHit("most spaces", Triggers, 6);
  }

  lemma MoreAvailabilityMissesCheapest()
    ensures !Matches("more availability", Triggers[0].1)
  {
    assert !Contains("more availability", "cheapest") by { NotContainsChar("more availability", "cheapest", 6); }
    assert !Contains("more availability", "lowest price") by { NotContainsChar("more availability", "lowest price", 10); }
    assert !Contains("more availability", "low cost") by { NotContainsChar("more availability", "low cost", 6); }
    assert !Contains("more availability", "least expensive") by { NotContainsChar("more availability", "least expensive", 11); }
  }

  lemma MoreAvailabilityMissesExpensive()
    ensures !Matches("more availability", Triggers[1].1)
  {
    assert !Contains("more availability", "most expensive") by { NotContainsChar("more availability", "most expensive", 10); }
    assert !Contains("more availability", "highest price") by { NotContainsChar("more availability", "highest price", 11); }
    assert !Contains("more availability", "premium") by { NotContainsChar("more availability", "premium", 5); }
    assert !Contains("more availability", "expensive course") by { NotContainsChar("more availability", "expensive course", 14); }
  }

  lemma MoreAvailabilityMissesSoonest()
    ensures !Matches("more availability", Triggers[2].1)
  {
    assert !Contains("more availability", "soonest") by { NotContainsChar("more availability", "soonest", 5); }
    assert !Contains("more availability", "earliest") by { NotContainsChar("more availability", "earliest", 6); }
    assert !Contains("more availability", "first available") by { NotContainsChar("more availability", "first available", 3); }
    assert !Contains("more availability", "next one") by { NotContainsChar("more availability", "next one", 6); }
  }

  lemma MoreAvailabilityMissesLatest()
    ensures !Matches("more availability", Triggers[3].1)
  {
    assert !Contains("more availability", "latest") by { NotContainsChar("more availability", "latest", 4); }
    assert !Contains("more availability", "last one") by { NotContainsChar("more availability", "last one", 6); }
    assert !Contains("more availability", "latest date") by { NotContainsChar("more availability", "latest date", 7); }
  }

  lemma MoreAvailabilityMissesShortest()
    ensures !Matches("more availability", Triggers[4].1)
  {
    assert !Contains("more availability", "shortest") by { NotContainsChar("more availability", "shortest", 6); }
    assert !Contains("more availability", "least days") by { NotContainsChar("more availability", "least days", 9); }
    assert !Contains("more availability", "minimum duration") by { NotContainsChar("more availability", "minimum duration", 15); }
  }

  lemma MoreAvailabilityMissesLongest()
    ensures !Matches("more availability", Triggers[5].1)
  {
    assert !Contains("more availability", "longest") by { NotContainsChar("more availability", "longest", 5); }
    assert !Contains("more availability", "maximum duration") by { NotContainsChar("more availability", "maximum duration", 15); }
    assert !Contains("more availability", "many days") by { NotContainsChar("more availability", "many days", 8); }
  }

  lemma SelectsMoreAvailability()
    ensures FirstKey("more availability", Triggers, 0) == Some("most spaces")
  {
    MoreAvailabilityMissesCheapest();
    FirstKeySkip("more availability", Triggers, 0);
    MoreAvailabilityMissesExpensive();
    FirstKeySkip("more availability", Triggers, 1);
    MoreAvailabilityMissesSoonest();
    FirstKeySkip("more availability", Triggers, 2);
    MoreAvailabilityMissesLatest();
    FirstKeySkip("more availability", Triggers, 3);
    MoreAvailabilityMissesShortest();
    FirstKeySkip("more availability", Triggers, 4);
    MoreAvailabilityMissesLongest();
    FirstKeySkip("more availability", Triggers, 5);
    assert Triggers[6].1[1] == "more availability";
    ContainsSelf("more availability");
    FirstKeyHit("more availability", Triggers, 6);
  }

  lemma MoreSeatsMissesCheapest()
    ensures !Matches("more seats", Triggers[0].1)
  {
    assert !Contains("more seats", "cheapest") by { NotContainsChar("more seats", "cheapest", 4); }
    assert !Contains("more seats", "lowest price") by { NotContainsChar("more seats", "lowest price", 10); }
    assert !Contains("more seats", "low cost") by { NotContainsChar("more seats", "low cost", 4); }
    assert !Contains("more seats", "least expensive") by { NotContainsChar("more seats", "least expensive", 13); }
  }

  lemma MoreSeatsMissesExpensive()
    ensures !Matches("more seats", Triggers[1].1)
  {
    assert !Contains("more seats", "most expensive") by { NotContainsChar("more seats", "most expensive", 12); }
    assert !Contains("more seats", "highest price") by { NotContainsChar("more seats", "highest price", 11); }
    assert !Contains("more seats", "premium") by { NotContainsChar("more seats", "premium", 5); }
    assert !Contains("more seats", "expensive course") by { NotContainsChar("more seats", "expensive course", 12); }
  }

  lemma MoreSeatsMissesSoonest()
    ensures !Matches("more seats", Triggers[2].1)
  {
    assert !Contains("more seats", "soonest") by { NotContainsChar("more seats", "soonest", 3); }
    assert !Contains("more seats", "earliest") by { NotContainsChar("more seats", "earliest", 4); }
    assert !Contains("more seats", "first available") by { NotContainsChar("more seats", "first available", 13); }
    assert !Contains("more seats", "next one") by { NotContainsChar("more seats", "next one", 6); }
  }

  lemma MoreSeatsMissesLatest()
    ensures !Matches("more seats", Triggers[3].1)
  {
    assert !Contains("more seats", "latest") by { NotContainsChar("more seats", "latest", 0); }
    assert !Contains("more seats", "last one") by { NotContainsChar("more seats", "last one", 6); }
    assert !Contains("more seats", "latest date") by { NotContainsChar("more seats", "latest date", 7); }
  }

  lemma MoreSeatsMissesShortest()
    ensures !Matches("more seats", Triggers[4].1)
  {
    assert !Contains("more seats", "shortest") by { NotContainsChar("more seats", "shortest", 1); }
    assert !Contains("more seats", "least days") by { NotContainsChar("more seats", "least days", 8); }
    assert !Contains("more seats", "minimum duration") by { NotContainsChar("more seats", "minimum duration", 15); }
  }

  lemma MoreSeatsMissesLongest()
    ensures !Matches("more seats", Triggers[5].1)
  {
    assert !Contains("more seats", "longest") by { NotContainsChar("more seats", "longest", 3); }
    assert !Contains("more seats", "maximum duration") by { NotContainsChar("more seats", "maximum duration", 15); }
    assert !Contains("more seats", "many days") by { NotContainsChar("more seats", "many days", 7); }
  }

  lemma SelectsMoreSeats()
    ensures FirstKey("more seats", Triggers, 0) == Some("most spaces")
  {
    MoreSeatsMissesCheapest();
    FirstKeySkip("more seats", Triggers, 0);
    MoreSeatsMissesExpensive();
    FirstKeySkip("more seats", Triggers, 1);
    MoreSeatsMissesSoonest();
    FirstKeySkip("more seats", Triggers, 2);
    MoreSeatsMissesLatest();
    FirstKeySkip("more seats", Triggers, 3);
    MoreSeatsMissesShortest();
    FirstKeySkip("more seats", Triggers, 4);
    MoreSeatsMissesLongest();
    FirstKeySkip("more seats", Triggers, 5);
    assert Triggers[6].1[2] == "more seats";
    ContainsSelf("more seats");
    FirstKeyHit("more seats", Triggers, 6);
  }

  lemma LeastSpacesMissesCheapest()
    ensures !Matches("least spaces", Triggers[0].1)
  {
    assert !Contains("least spaces", "cheapest") by { NotContainsChar("least spaces", "cheapest", 1); }
    assert !Contains("least spaces", "lowest price") by { NotContainsChar("least spaces", "lowest price", 9); }
    assert !Contains("least spaces", "low cost") by { NotContainsChar("least spaces", "low cost", 5); }
    assert !Contains("least spaces", "least expensive") by { NotContainsChar("least spaces", "least expensive", 13); }
  }

  lemma LeastSpacesMissesExpensive()
    ensures !Matches("least spaces", Triggers[1].1)
  {
    assert !Contains("least spaces", "most expensive") by { NotContainsChar("least spaces", "most expensive", 12); }
    assert !Contains("least spaces", "highest price") by { NotContainsChar("least spaces", "highest price", 10); }
    assert !Contains("least spaces", "premium") by { NotContainsChar("least spaces", "premium", 6); }
    assert !Contains("least spaces", "expensive course") by { NotContainsChar("least spaces", "expensive course", 13); }
  }

  lemma LeastSpacesMissesSoonest()
    ensures !Matches("least spaces", Triggers[2].1)
  {
    assert !Contains("least spaces", "soonest") by { NotContainsChar("least spaces", "soonest", 3); }
    assert !Contains("least spaces", "earliest") by { NotContainsChar("least spaces", "earliest", 4); }
    assert !Contains("least spaces", "first available") by { NotContainsChar("least spaces", "first available", 12); }
    assert !Contains("least spaces", "next one") by { NotContainsChar("least spaces", "next one", 6); }
  }

  lemma LeastSpacesMissesLatest()
    ensures !Matches("least spaces", Triggers[3].1)
  {
    LeastSpacesLacksLatest();
    assert !Contains("least spaces", "last one") by { NotContainsChar("least spaces", "last one", 6); }
    assert !Contains("least spaces", "latest date") by { NotContainsChar("least spaces", "latest date", 7); }
  }

  lemma LeastSpacesMissesShortest()
    ensures !Matches("least spaces", Triggers[4].1)
  {
    assert !Contains("least spaces", "shortest") by { NotContainsChar("least spaces", "shortest", 3); }
    assert !Contains("least spaces", "least days") by { NotContainsChar("least spaces", "least days", 8); }
    assert !Contains("least spaces", "minimum duration") by { NotContainsChar("least spaces", "minimum duration", 15); }
  }

  lemma LeastSpacesMissesLongest()
    ensures !Matches("least spaces", Triggers[5].1)
  {
    assert !Contains("least spaces", "longest") by { NotContainsChar("least spaces", "longest", 3); }
    assert !Contains("least spaces", "maximum duration") by { NotContainsChar("least spaces", "maximum duration", 15); }
    assert !Contains("least spaces", "many days") by { NotContainsChar("least spaces", "many days", 7); }
  }

  lemma LeastSpacesMissesMostSpaces()
    ensures !Matches("least spaces", Triggers[6].1)
  {
    assert !Contains("least spaces", "most spaces") by { NotContainsChar("least spaces", "most spaces", 1); }
    assert !Contains("least spaces", "more availability") by { NotContainsChar("least spaces", "more availability", 16); }
    assert !Contains("least spaces", "more seats") by { NotContainsChar("least spaces", "more seats", 2); }
  }

  lemma SelectsLeastSpaces()
    ensures FirstKey("least spaces", Triggers, 0) == Some("least spaces")
  {
    LeastSpacesMissesCheapest();
    FirstKeySkip("least spaces", Triggers, 0);
    LeastSpacesMissesExpensive();
    FirstKeySkip("least spaces", Triggers, 1);
    LeastSpacesMissesSoonest();
    FirstKeySkip("least spaces", Triggers, 2);
    LeastSpacesMissesLatest();
    FirstKeySkip("least spaces", Triggers, 3);
    LeastSpacesMissesShortest();
    FirstKeySkip("least spaces", Triggers, 4);
    LeastSpacesMissesLongest();
    FirstKeySkip("least spaces", Triggers, 5);
    LeastSpacesMissesMostSpaces();
    FirstKeySkip("least spaces", Triggers, 6);
    assert Triggers[7].1[0] == "least spaces";
    ContainsSelf("least spaces");
    FirstKeyHit("least spaces", Triggers, 7);
  }

  lemma AlmostFullMissesCheapest()
    ensures !Matches("almost full", Triggers[0].1)
  {
    assert !Contains("almost full", "cheapest") by { NotContainsChar("almost full", "cheapest", 5); }
    assert !Contains("almost full", "lowest price") by { NotContainsChar("almost full", "lowest price", 11); }
    assert !Contains("almost full", "low cost") by { NotContainsChar("almost full", "low cost", 4); }
    assert !Contains("almost full", "least expensive") by { NotContainsChar("almost full", "least expensive", 14); }
  }

  lemma AlmostFullMissesExpensive()
    ensures !Matches("almost full", Triggers[1].1)
  {
    assert !Contains("almost full", "most expensive") by { NotContainsChar("almost full", "most expensive", 13); }
    assert !Contains("almost full", "highest price") by { NotContainsChar("almost full", "highest price", 12); }
    assert !Contains("almost full", "premium") by { NotContainsChar("almost full", "premium", 4); }
    assert !Contains("almost full", "expensive course") by { NotContainsChar("almost full", "expensive course", 15); }
  }

  lemma AlmostFullMissesSoonest()
    ensures !Matches("almost full", Triggers[2].1)
  {
    assert !Contains("almost full", "soonest") by { NotContainsChar("almost full", "soonest", 4); }
    assert !Contains("almost full", "earliest") by { NotContainsChar("almost full", "earliest", 5); }
    assert !Contains("almost full", "first available") by { NotContainsChar("almost full", "first available", 14); }
    assert !Contains("almost full", "next one") by { NotContainsChar("almost full", "next one", 7); }
  }

  lemma AlmostFullMissesLatest()
    ensures !Matches("almost full", Triggers[3].1)
  {
    assert !Contains("almost full", "latest") by { NotContainsChar("almost full", "latest", 3); }
    assert !Contains("almost full", "last one") by { NotContainsChar("almost full", "last one", 7); }
    assert !Contains("almost full", "latest date") by { NotContainsChar("almost full", "latest date", 10); }
  }

  lemma AlmostFullMissesShortest()
    ensures !Matches("almost full", Triggers[4].1)
  {
    assert !Contains("almost full", "shortest") by { NotContainsChar("almost full", "shortest", 5); }
    assert !Contains("almost full", "least days") by { NotContainsChar("almost full", "least days", 8); }
    assert !Contains("almost full", "minimum duration") by { NotContainsChar("almost full", "minimum duration", 15); }
  }

  lemma AlmostFullMissesLongest()
    ensures !Matches("almost full", Triggers[5].1)
  {
    assert !Contains("almost full", "longest") by { NotContainsChar("almost full", "longest", 4); }
    assert !Contains("almost full", "maximum duration") by { NotContainsChar("almost full", "maximum duration", 15); }
    assert !Contains("almost full", "many days") by { NotContainsChar("almost full", "many days", 7); }
  }

  lemma AlmostFullMissesMostSpaces()
    ensures !Matches("almost full", Triggers[6].1)
  {
    assert !Contains("almost full", "most spaces") by { NotContainsChar("almost full", "most spaces", 9); }
    assert !Contains("almost full", "more availability") by { NotContainsChar("almost full", "more availability", 16); }
    assert !Contains("almost full", "more seats") by { NotContainsChar("almost full", "more seats", 6); }
  }

  lemma SelectsAlmostFull()
    ensures FirstKey("almost full", Triggers, 0) == Some("least spaces")
  {
    AlmostFullMissesCheapest();
    FirstKeySkip("almost full", Triggers, 0);
    AlmostFullMissesExpensive();
    FirstKeySkip("almost full", Triggers, 1);
    AlmostFullMissesSoonest();
    FirstKeySkip("almost full", Triggers, 2);
    AlmostFullMissesLatest();
    FirstKeySkip("almost full", Triggers, 3);
    AlmostFullMissesShortest();
    FirstKeySkip("almost full", Triggers, 4);
    AlmostFullMissesLongest();
    FirstKeySkip("almost full", Triggers, 5);
    AlmostFullMissesMostSpaces();
    FirstKeySkip("almost full", Triggers, 6);
    assert Triggers[7].1[1] == "almost full";
    ContainsSelf("almost full");
    FirstKeyHit("almost full", Triggers, 7);
  }

  lemma LowAvailabilityMissesCheapest()
    ensures !Matches("low availability", Triggers[0].1)
  {
    assert !Contains("low availability", "cheapest") by { NotContainsChar("low availability", "cheapest", 6); }
    assert !Contains("low availability", "lowest price") by { NotContainsChar("low availability", "lowest price", 11); }
    assert !Contains("low availability", "low cost") by { NotContainsChar("low availability", "low cost", 6); }
    assert !Contains("low availability", "least expensive") by { NotContainsChar("low availability", "least expensive", 14); }
  }

  lemma LowAvailabilityMissesExpensive()
    ensures !Matches("low availability", Triggers[1].1)
  {
    assert !Contains("low availability", "most expensive") by { NotContainsChar("low availability", "most expensive", 13); }
    assert !Contains("low availability", "highest price") by { NotContainsChar("low availability", "highest price", 12); }
    assert !Contains("low availability", "premium") by { NotContainsChar("low availability", "premium", 6); }
    assert !Contains("low availability", "expensive course") by { NotContainsChar("low availability", "expensive course", 15); }
  }

  lemma LowAvailabilityMissesSoonest()
    ensures !Matches("low availability", Triggers[2].1)
  {
    assert !Contains("low availability", "soonest") by { NotContainsChar("low availability", "soonest", 5); }
    assert !Contains("low availability", "earliest") by { NotContainsChar("low availability", "earliest", 6); }
    assert !Contains("low availability", "first available") by { NotContainsChar("low availability", "first available", 14); }
    assert !Contains("low availability", "next one") by { NotContainsChar("low availability", "next one", 7); }
  }

  lemma LowAvailabilityMissesLatest()
    ensures !Matches("low availability", Triggers[3].1)
  {
    assert !Contains("low availability", "latest") by { NotContainsChar("low availability", "latest", 4); }
    assert !Contains("low availability", "last one") by { NotContainsChar("low availability", "last one", 7); }
    assert !Contains("low availability", "latest date") by { NotContainsChar("low availability", "latest date", 10); }
  }

  lemma LowAvailabilityMissesShortest()
    ensures !Matches("low availability", Triggers[4].1)
  {
    assert !Contains("low availability", "shortest") by { NotContainsChar("low availability", "shortest", 6); }
    assert !Contains("low availability", "least days") by { NotContainsChar("low availability", "least days", 9); }
    assert !Contains("low availability", "minimum duration") by { NotContainsChar("low availability", "minimum duration", 15); }
  }

  lemma LowAvailabilityMissesLongest()
    ensures !Matches("low availability", Triggers[5].1)
  {
    assert !Contains("low availability", "longest") by { NotContainsChar("low availability", "longest", 5); }
    assert !Contains("low availability", "maximum duration") by { NotContainsChar("low availability", "maximum duration", 15); }
    assert !Contains("low availability", "many days") by { NotContainsChar("low availability", "many days", 8); }
  }

  lemma LowAvailabilityMissesMostSpaces()
    ensures !Matches("low availability", Triggers[6].1)
  {
    assert !Contains("low availability", "most spaces") by { NotContainsChar("low availability", "most spaces", 10); }
    assert !Contains("low availability", "more availability") by { NotContainsChar("low availability", "more availability", 3); }
    assert !Contains("low availability", "more seats") by { NotContainsChar("low availability", "more seats", 9); }
  }

  lemma SelectsLowAvailability()
    ensures FirstKey("low availability", Triggers, 0) == Some("least spaces")
  {
    LowAvailabilityMissesCheapest();
    FirstKeySkip("low availability", Triggers, 0);
    LowAvailabilityMissesExpensive();
    FirstKeySkip("low availability", Triggers, 1);
    LowAvailabilityMissesSoonest();
    FirstKeySkip("low availability", Triggers, 2);
    LowAvailabilityMissesLatest();
    FirstKeySkip("low availability", Triggers, 3);
    LowAvailabilityMissesShortest();
    FirstKeySkip("low availability", Triggers, 4);
    LowAvailabilityMissesLongest();
    FirstKeySkip("low availability", Triggers, 5);
    LowAvailabilityMissesMostSpaces();
    FirstKeySkip("low availability", Triggers, 6);
    assert Triggers[7].1[2] == "low availability";
    ContainsSelf("low availability");
    FirstKeyHit("low availability", Triggers, 7);
  }

  lemma LastOneLacksSoonest()
    ensures !Contains("last one", "soonest")
  {
    assert !ContainsFrom("last one", "so", 6);
    assert "soonest"[0..2] == "so";
    NotContainsSlice("last one", "soonest", 0, 2);
  }

  lemma LeastDaysLacksLatest()
    ensures !Contains("least days", "latest")
  {
    assert !ContainsFrom("least days", "la", 6);
    assert "latest"[0..2] == "la";
    NotContainsSlice("least days", "latest", 0, 2);
  }

  lemma LongestLacksSoonest()
    ensures !Contains("longest", "soonest")
  {
    assert !ContainsFrom("longest", "so", 6);
    assert "soonest"[0..2] == "so";
    NotContainsSlice("longest", "soonest", 0, 2);
  }

  lemma MaximumDurationLacksMinimumDuration()
    ensures !Contains("maximum duration", "minimum duration")
  {
    assert !ContainsFrom("maximum duration", "mi", 12);
    assert !ContainsFrom("maximum duration", "mi", 6);
    assert "minimum duration"[0..2] == "mi";
    NotContainsSlice("maximum duration", "minimum duration", 0, 2);
  }

  lemma LeastSpacesLacksLatest()
    ensures !Contains("least spaces", "latest")
  {
    assert !ContainsFrom("least spaces", "la", 6);
    assert "latest"[0..2] == "la";
    NotContainsSlice("least spaces", "latest", 0, 2);
  }

  /** Every trigger phrase is a fixed point of the normaliser. */
  lemma PhrasesFixed(k: nat, j: nat)
    requires k < |Triggers| && j < |Triggers[k].1|
    ensures NormalizeText(Triggers[k].1[j]) == Triggers[k].1[j]
  {
    if k == 0 && j == 0 { FixedCheapest(); }
    else if k == 0 && j == 1 { FixedLowestPrice(); }
    else if k == 0 && j == 2 { FixedLowCost(); }
    else if k == 0 && j == 3 { FixedLeastExpensive(); }
    else if k == 1 && j == 0 { FixedMostExpensive(); }
    else if k == 1 && j == 1 { FixedHighestPrice(); }
    else if k == 1 && j == 2 { FixedPremium(); }
    else if k == 1 && j == 3 { FixedExpensiveCourse(); }
    else if k == 2 && j == 0 { FixedSoonest(); }
    else if k == 2 && j == 1 { FixedEarliest(); }
    else if k == 2 && j == 2 { FixedFirstAvailable(); }
    else if k == 2 && j == 3 { FixedNextOne(); }
    else if k == 3 && j == 0 { FixedLatest(); }
    else if k == 3 && j == 1 { FixedLastOne(); }
    else if k == 3 && j == 2 { FixedLatestDate(); }
    else if k == 4 && j == 0 { FixedShortest(); }
    else if k == 4 && j == 1 { FixedLeastDays(); }
    else if k == 4 && j == 2 { FixedMinimumDuration(); }
    else if k == 5 && j == 0 { FixedLongest(); }
    else if k == 5 && j == 1 { FixedMaximumDuration(); }
    else if k == 5 && j == 2 { FixedManyDays(); }
    else if k == 6 && j == 0 { FixedMostSpaces(); }
    else if k == 6 && j == 1 { FixedMoreAvailability(); }
    else if k == 6 && j == 2 { FixedMoreSeats(); }
    else if k == 7 && j == 0 { FixedLeastSpaces(); }
    else if k == 7 && j == 1 { FixedAlmostFull(); }
    else if k == 7 && j == 2 { FixedLowAvailability(); }
  }

  /** Each trigger phrase sent on its own selects the key it is listed under: no phrase is shadowed by an earlier key. */
  lemma PhraseSelectsItsKey(k: nat, j: nat)
    requires k < |Triggers| && j < |Triggers[k].1|
    ensures DetectSortKey(Triggers[k].1[j]) == Some(Triggers[k].0)
  {
    PhrasesFixed(k, j);
    if k == 0 && j == 0 { SelectsCheapest(); }
    else if k == 0 && j == 1 { SelectsLowestPrice(); }
    else if k == 0 && j == 2 { SelectsLowCost(); }
    else if k == 0 && j == 3 { SelectsLeastExpensive(); }
    else if k == 1 && j == 0 { SelectsMostExpensive(); }
    else if k == 1 && j == 1 { SelectsHighestPrice(); }
    else if k == 1 && j == 2 { SelectsPremium(); }
    else if k == 1 && j == 3 { SelectsExpensiveCourse(); }
    else if k == 2 && j == 0 { SelectsSoonest(); }
    else if k == 2 && j == 1 { SelectsEarliest(); }
    else if k == 2 && j == 2 { SelectsFirstAvailable(); }
    else if k == 2 && j == 3 { SelectsNextOne(); }
    else if k == 3 && j == 0 { SelectsLatest(); }
    else if k == 3 && j == 1 { SelectsLastOne(); }
    else if k == 3 && j == 2 { SelectsLatestDate(); }
    else if k == 4 && j == 0 { SelectsShortest(); }
    else if k == 4 && j == 1 { SelectsLeastDays(); }
    else if k == 4 && j == 2 { SelectsMinimumDuration(); }
    else if k == 5 && j == 0 { SelectsLongest(); }
    else if k == 5 && j == 1 { SelectsMaximumDuration(); }
    else if k == 5 && j == 2 { SelectsManyDays(); }
    else if k == 6 && j == 0 { SelectsMostSpaces(); }
    else if k == 6 && j == 1 { SelectsMoreAvailability(); }
    else if k == 6 && j == 2 { SelectsMoreSeats(); }
    else if k == 7 && j == 0 { SelectsLeastSpaces(); }
    else if k == 7 && j == 1 { SelectsAlmostFull(); }
    else if k == 7 && j == 2 { SelectsLowAvailability(); }
  }

  lemma FixedCheapestAndLatest()
    ensures NormalizeText("cheapest and latest") == "cheapest and latest"
  {
    assert CanonicalFrom("cheapest and latest", 12);
    assert CanonicalFrom("cheapest and latest", 6);
    FixedPoint("cheapest and latest");
  }

  lemma SelectsCheapestAndLatest()
    ensures FirstKey("cheapest and latest", Triggers, 0) == Some("cheapest")
  {
    assert "cheapest and latest"[0..8] == "cheapest";
    ContainsAt("cheapest and latest", "cheapest", 0);
    assert Triggers[0].1[0] == "cheapest";
    FirstKeyAt("cheapest and latest", Triggers, 0, 0);
  }

  /** Two sort requests in one message: the key declared first wins, although "latest" occurs too. */
  lemma CheapestAndLatest()
    ensures DetectSortKey("cheapest and latest") == Some("cheapest")
  {
    FixedCheapestAndLatest();
    SelectsCheapestAndLatest();
  }
}
