/**
 * The course record and the derived metadata of lib/courses/buildMeta.js.
 */
module Courses {
  import opened Wrappers
  import opened Strings
  import opened Location
  import opened Dates
  import opened Numbers

  /**
   * A catalogue product as the store feed delivers it. A field that is
   * absent, or not a string, is None.
   */
  datatype CourseRecord = CourseRecord(
    name: Option<string>,
    price: Option<string>,
    startDate: Option<string>,
    endDate: Option<string>,
    availableSpaces: Option<string>)

  datatype CourseType = Standard | Refresher

  /** The type as the API spells it. */
  function TypeName(t: CourseType): (s: string)
    ensures s == "refresher" <==> t == Refresher
  {
    match t
    case Standard => "standard"
    case Refresher => "refresher"
  }

  /** The lower-cased name, or "" when there is none (`product.name?.toLowerCase() || ''`). */
  function LowerName(p: CourseRecord): (n: string)
    ensures p.name.Some? ==> |n| == |p.name.value|
    ensures p.name.None? ==> n == ""
  {
    if p.name.Some? then Lower(p.name.value) else ""
  }

  /** A course is a refresher exactly when its name mentions "refresher" in any letter case. */
  function TypeOf(p: CourseRecord): (t: CourseType)
    ensures t == Refresher <==> p.name.Some? && Contains(Lower(p.name.value), "refresher")
  {
    if Contains(LowerName(p), "refresher") then Refresher else Standard
  }

  /**
   * The metadata the core attaches to a product. `price` (a float) is not
   * part of this model.
   */
  datatype CourseMeta = CourseMeta(
    availableSpaces: Option<int>,
    start: Option<Day>,
    end: Option<Day>,
    isUpcoming: bool,
    isOngoing: bool,
    durationDays: Option<int>,
    courseType: CourseType,
    location: string)

  /** Meta derived from parsed dates, today's date and the name (shared with lib/search.js). */
  function MetaOf(p: CourseRecord, name: string, start: Option<Day>, end: Option<Day>, today: Day): CourseMeta
  {
    CourseMeta(
      ParseInt(if p.availableSpaces.Some? then p.availableSpaces.value else ""),
      start,
      end,
      start.Some? && start.value > today,
      start.Some? && end.Some? && start.value <= today <= end.value,
      if start.Some? && end.Some? then Some(end.value - start.value + 1) else None,
      TypeOf(p),
      ExtractLocation(name))
  }

  /**
   * `buildMeta(product, today)`. A product without a name makes
   * `extractLocation` fail; that failure is None.
   */
  function BuildMeta(p: CourseRecord, today: Day, parse: string -> Option<Day>): (m: Option<CourseMeta>)
    ensures m.Some? <==> p.name.Some?
    ensures m.Some? ==> (m.value.start == ParseDate(p.startDate, parse)
      && m.value.end == ParseDate(p.endDate, parse)
      && m.value.location == ExtractLocation(p.name.value)
      && m.value.courseType == TypeOf(p)
      && m.value.availableSpaces == ParseInt(if p.availableSpaces.Some? then p.availableSpaces.value else ""))
    // never both upcoming and ongoing; an ongoing course lasts at least a day, both ends counted
    ensures m.Some? ==> !(m.value.isUpcoming && m.value.isOngoing)
    ensures m.Some? && m.value.isOngoing ==> m.value.durationDays.Some? && m.value.durationDays.value >= 1
  {
    if p.name.None? then None
    else Some(MetaOf(p, p.name.value, ParseDate(p.startDate, parse), ParseDate(p.endDate, parse), today))
  }

  /** The three date flags in terms of the parsed dates: upcoming iff it starts after today; ongoing iff today lies within both ends; a duration iff both dates parse. */
  lemma MetaDates(p: CourseRecord, today: Day, parse: string -> Option<Day>)
    requires p.name.Some?
    ensures var m := BuildMeta(p, today, parse).value;
      var s, e := ParseDate(p.startDate, parse), ParseDate(p.endDate, parse);
      (m.isUpcoming <==> s.Some? && today < s.value) &&
      (m.isOngoing <==> s.Some? && e.Some? && s.value <= today <= e.value) &&
      (m.durationDays.Some? <==> s.Some? && e.Some?) &&
      (m.durationDays.Some? ==> m.durationDays.value == e.value - s.value + 1)
  {
  }

  /** A course without a start date is neither upcoming nor ongoing and has no duration. */
  lemma NoStartNoFlags(p: CourseRecord, today: Day, parse: string -> Option<Day>)
    requires p.name.Some? && (p.startDate.None? || p.startDate == Some(""))
    ensures var m := BuildMeta(p, today, parse).value;
      !m.isUpcoming && !m.isOngoing && m.durationDays.None?
  {
  }

  /** The location is "Unknown" for a name without "|" and the trimmed second field otherwise. */
  lemma MetaLocation(p: CourseRecord, today: Day, parse: string -> Option<Day>, a: string, m: string, rest: string)
    requires p.name == Some(a + "|" + m + rest)
    requires '|' !in a && '|' !in m && (rest == [] || rest[0] == '|')
    ensures BuildMeta(p, today, parse).value.location == Trim(m)
  {
    if rest == [] {
      assert a + "|" + m + rest == a + "|" + m;
      LocationAfterOnlyBar(a, m);
    } else {
      assert a + "|" + m + rest == a + "|" + m + "|" + rest[1..];
      LocationBetweenBars(a, m, rest[1..]);
    }
  }
}
