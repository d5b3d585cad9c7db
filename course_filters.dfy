/**
 * The record predicates that both `searchCourses` variants apply, in the
 * same words, to each product (lib/search.js:63-64,88-97 and
 * pages/api/ask.js:37-38,48-59): the optional-parameter normalisation,
 * the seat check, the month-word check and the location check.
 */
module CourseFilters {
  import opened Wrappers
  import opened Strings
  import opened Numbers

  /**
   * `x?.toLowerCase().trim() || null`: an absent parameter, and one that
   * is blank after trimming, both switch the filter off.
   */
  function OptionalLower(x: Option<string>): (r: Option<string>)
    ensures r.Some? <==> x.Some? && Trim(Lower(x.value)) != ""
    ensures r.Some? ==> r.value == Trim(Lower(x.value)) && NoEdgeSpace(r.value)
  {
    if x.None? then None
    else
      var t := Trim(Lower(x.value));
      if t == "" then None else Some(t)
  }

  /** `!x` for a string field: absent or empty. */
  predicate Falsy(x: Option<string>) {
    x.None? || x.value == ""
  }

  /**
   * `require && (!spaces || parseInt(spaces) <= 0)` is the rejection; a
   * value `parseInt` cannot read is NaN, and `NaN <= 0` is false.
   */
  predicate SeatsOk(require: bool, spaces: Option<string>) {
    !require || (!Falsy(spaces) && !(ParseInt(spaces.value).Some? && ParseInt(spaces.value).value <= 0))
  }

  /** The seat check rejects exactly a missing or empty count and a count that reads as zero or less. */
  lemma SeatsOkIff(require: bool, spaces: Option<string>)
    ensures !SeatsOk(require, spaces) <==>
      require && (Falsy(spaces) || exists v :: ParseInt(spaces.value) == Some(v) && v <= 0)
  {
    if require && !Falsy(spaces) && ParseInt(spaces.value).Some? && ParseInt(spaces.value).value <= 0 {
      var v := ParseInt(spaces.value).value;
      assert ParseInt(spaces.value) == Some(v);
    }
  }

  /** A positive decimal count passes the seat check; zero does not. */
  lemma SeatsDecimal(n: nat)
    ensures SeatsOk(true, Some(DecimalString(n))) <==> n > 0
  {
    ParseDecimal(n);
  }

  /** Text `parseInt` cannot read passes the seat check even when seats are required. */
  lemma SeatsUnreadable(s: string)
    requires s != "" && ParseInt(s).None?
    ensures SeatsOk(true, Some(s))
  {
  }

  // ---------------------------------------------------------------------
  // `/\b(January|…|December)\b/i`

  /** The twelve alternatives, lower-cased, in the order the pattern lists them. */
  const Months: seq<string> := ["january", "february", "march", "april", "may", "june",
    "july", "august", "september", "october", "november", "december"]

  /** `\w`: ASCII letters, digits and `_`. */
  predicate WordChar(c: char) {
    'a' <= c <= 'z' || 'A' <= c <= 'Z' || '0' <= c <= '9' || c == '_'
  }

  /** The month word `m` matches at `p`, ignoring case, with a word boundary on each side. */
  predicate MonthAt(s: string, p: nat, m: string) {
    p + |m| <= |s| && Lower(s[p..p + |m|]) == m
    && (p == 0 || !WordChar(s[p - 1]))
    && (p + |m| == |s| || !WordChar(s[p + |m|]))
  }

  /** The first alternative at or after index `i` of `Months` that matches at `p`. */
  function MonthAtFrom(s: string, p: nat, i: nat): (r: Option<string>)
    requires i <= |Months|
    ensures r.Some? ==> r.value in Months[i..] && MonthAt(s, p, r.value)
    ensures r.None? ==> forall j :: i <= j < |Months| ==> !MonthAt(s, p, Months[j])
    decreases |Months| - i
  {
    if i == |Months| then None
    else if MonthAt(s, p, Months[i]) then Some(Months[i])
    else MonthAtFrom(s, p, i + 1)
  }

  /** The leftmost match at or after `p`: the regex engine tries each start position in turn. */
  function MonthFrom(s: string, p: nat): (r: Option<string>)
    requires p <= |s|
    decreases |s| - p
  {
    if p == |s| then None
    else
      var here := MonthAtFrom(s, p, 0);
      if here.Some? then here else MonthFrom(s, p + 1)
  }

  /** `match[1].toLowerCase()`, or None for no match. */
  function MonthWord(s: string): Option<string> {
    MonthFrom(s, 0)
  }

  /** No alternative of the pattern matches at `p`. */
  predicate NoMonthAt(s: string, p: nat) {
    forall j :: 0 <= j < |Months| ==> !MonthAt(s, p, Months[j])
  }

  /** No month word starts at any index in [p, q). */
  predicate NoMonthBetween(s: string, p: nat, q: nat) {
    forall k :: p <= k < q ==> NoMonthAt(s, k)
  }

  /** No alternative matches at `p` exactly when the scan of the alternatives finds none. */
  lemma MonthAtNone(s: string, p: nat)
    ensures MonthAtFrom(s, p, 0).None? <==> NoMonthAt(s, p)
  {
    var here := MonthAtFrom(s, p, 0);
    if here.Some? {
      var j :| 0 <= j < |Months[0..]| && Months[0..][j] == here.value;
      assert MonthAt(s, p, Months[j]);
    }
  }

  /** The search finds nothing exactly when no month word starts at or after `p`. */
  lemma {:induction false} MonthFromNone(s: string, p: nat)
    requires p <= |s|
    ensures MonthFrom(s, p).None? <==> NoMonthBetween(s, p, |s|)
    decreases |s| - p
  {
    if p < |s| {
      MonthFromNone(s, p + 1);
      MonthAtNone(s, p);
      if MonthAtFrom(s, p, 0).Some? {
        assert !NoMonthAt(s, p);
      } else {
        assert MonthFrom(s, p) == MonthFrom(s, p + 1);
        assert NoMonthBetween(s, p, |s|) <==> NoMonthBetween(s, p + 1, |s|);
      }
    }
  }

  /** A found word is a month name matching at some `q` with no month word in [p, q). */
  lemma {:induction false} MonthFromSome(s: string, p: nat)
    requires p <= |s| && MonthFrom(s, p).Some?
    ensures MonthFrom(s, p).value in Months
    ensures exists q :: p <= q < |s| && MonthAt(s, q, MonthFrom(s, p).value) && NoMonthBetween(s, p, q)
    decreases |s| - p
  {
    var here := MonthAtFrom(s, p, 0);
    if here.Some? {
      assert MonthFrom(s, p) == here;
      assert MonthAt(s, p, here.value) && NoMonthBetween(s, p, p);
    } else {
      MonthAtNone(s, p);
      assert MonthFrom(s, p) == MonthFrom(s, p + 1);
      MonthFromSome(s, p + 1);
      var q :| p + 1 <= q < |s| && MonthAt(s, q, MonthFrom(s, p + 1).value) && NoMonthBetween(s, p + 1, q);
      assert NoMonthAt(s, p);
      forall k | p <= k < q ensures NoMonthAt(s, k) {
        if k != p {
          assert p + 1 <= k < q;
        }
      }
    }
  }

  /** The found word is a month name, it occurs in the text at a boundary, and no month occurs before it. */
  lemma MonthWordSpec(s: string)
    ensures MonthWord(s).None? <==> NoMonthBetween(s, 0, |s|)
    ensures MonthWord(s).Some? ==> (MonthWord(s).value in Months &&
      exists q :: 0 <= q < |s| && MonthAt(s, q, MonthWord(s).value) && NoMonthBetween(s, 0, q))
  {
    MonthFromNone(s, 0);
    if MonthWord(s).Some? {
      MonthFromSome(s, 0);
    }
  }

  /** Every month name starts with a lower-case letter, so no month starts at a character that is not a letter. */
  lemma NoMonthAtNonLetter(s: string, p: nat)
    requires p < |s| && !('a' <= LowerChar(s[p]) <= 'z')
    ensures NoMonthAt(s, p)
  {
    forall j | 0 <= j < |Months| ensures !MonthAt(s, p, Months[j]) {
      assert 'a' <= Months[j][0] <= 'z';
      if p + |Months[j]| <= |s| {
        assert Lower(s[p..p + |Months[j]|])[0] == LowerChar(s[p]);
      }
    }
  }

  /** A single letter that differs from the month name, ignoring case, rules out a match there. */
  lemma NotMonthAt(s: string, p: nat, m: string, i: nat)
    requires i < |m| && p + i < |s| && LowerChar(s[p + i]) != m[i]
    ensures !MonthAt(s, p, m)
  {
    if p + |m| <= |s| {
      assert Lower(s[p..p + |m|])[i] == LowerChar(s[p + i]);
    }
  }

  lemma NoMonthSkips(s: string, p: nat)
    requires p < |s| && NoMonthAt(s, p)
    ensures MonthFrom(s, p) == MonthFrom(s, p + 1)
  {
  }

  lemma JuneAtThree(s: string)
    requires s == "30 June - 2 July"
    ensures MonthFrom(s, 3) == Some("june")
  {
    assert s[3..7] == "June";
    assert MonthAt(s, 3, "june");
    NotMonthAt(s, 3, Months[0], 1);
    NotMonthAt(s, 3, Months[1], 0);
    NotMonthAt(s, 3, Months[2], 0);
    NotMonthAt(s, 3, Months[3], 0);
    NotMonthAt(s, 3, Months[4], 0);
    assert MonthAtFrom(s, 3, 0) == Some("june");
  }

  /** For a range across two months, the first month named decides: "30 June - 2 July" is a June date. */
  lemma MonthOfRange()
    ensures MonthWord("30 June - 2 July") == Some("june")
  {
    var s := "30 June - 2 July";
    JuneAtThree(s);
    NoMonthAtNonLetter(s, 0);
    NoMonthAtNonLetter(s, 1);
    NoMonthAtNonLetter(s, 2);
    NoMonthSkips(s, 0);
    NoMonthSkips(s, 1);
    NoMonthSkips(s, 2);
  }

  /**
   * The month check: with a month requested and a non-empty start date,
   * the first month word of the date must equal the request. A date with
   * no month word is rejected; an absent or empty date is not checked.
   */
  predicate MonthOk(monthLower: Option<string>, startDate: Option<string>) {
    monthLower.None? || Falsy(startDate) ||
    (MonthWord(startDate.value).Some? && MonthWord(startDate.value).value == monthLower.value)
  }

  /** A requested month that is no month name rejects every dated record. */
  lemma MonthNotAName(m: string, startDate: string)
    requires m !in Months && startDate != ""
    ensures !MonthOk(Some(m), Some(startDate))
  {
    MonthWordSpec(startDate);
  }

  /** `locationLower && !name.includes(locationLower)` is the rejection. */
  predicate LocationOk(locationLower: Option<string>, name: string) {
    locationLower.None? || Contains(name, locationLower.value)
  }
}
