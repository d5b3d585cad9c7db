/**
 * `parseDate` of lib/utils/date.js (repeated in lib/search.js): picks the
 * part of a course's date text that names one date and hands it to the
 * runtime's date parser. The parser itself is a parameter: a total function
 * from text to a day number, or None where the runtime yields an invalid date.
 */
module Dates {
  import opened Wrappers
  import opened Strings

  /** A calendar day, counted in whole days; a later day is a larger number. */
  type Day = int

  /** For a range such as "5 May - 9 May": the text between the first and the second "-", trimmed. */
  function RangeEnd(s: string): (r: string)
    ensures '-' !in r
    ensures '-' !in s ==> r == s
  {
    if '-' in s then
      SplitCount(s, '-');
      SplitJoin(s, '-');
      var parts := Split(s, '-');
      assert parts[1] in parts;
      TrimKeepsOut(parts[1], '-');
      Trim(parts[1])
    else s
  }

  /** For text over several lines: the first line, trimmed. */
  function FirstLine(s: string): (r: string)
    ensures '\n' !in r
    ensures '\n' !in s ==> r == s
    ensures forall c :: c !in s ==> c !in r
  {
    if '\n' in s then
      SplitJoin(s, '\n');
      var parts := Split(s, '\n');
      assert parts[0] in parts;
      assert forall c :: c !in s ==> c !in parts[0];
      TrimSlice(parts[0]);
      Trim(parts[0])
    else s
  }

  /** The text handed to the date parser: the range step first, then the line step. */
  function DateText(s: string): (r: string)
    ensures '-' !in r && '\n' !in r
  {
    FirstLine(RangeEnd(s))
  }

  /**
   * `parseDate(dateStr)`: None for an absent, non-string or empty value;
   * otherwise what the runtime parser makes of `DateText`.
   */
  function ParseDate(dateStr: Option<string>, parse: string -> Option<Day>): (r: Option<Day>)
    ensures dateStr.None? || dateStr == Some("") ==> r.None?
  {
    match dateStr
    case None => None
    case Some(s) => if s == "" then None else parse(DateText(s))
  }

  /** A range "a - m" or "a - m - …": the parser sees the second field only, as its first line. */
  lemma DateTextRange(a: string, m: string, rest: string)
    requires '-' !in a && '-' !in m
    requires rest == [] || rest[0] == '-'
    ensures DateText(a + "-" + m + rest) == FirstLine(Trim(m))
  {
    SplitFirstTwo(a, '-', m, rest);
  }

  /** Without "-", the parser sees the first line, trimmed. */
  lemma DateTextLines(a: string, rest: string)
    requires '-' !in a + "\n" + rest && '\n' !in a
    ensures DateText(a + "\n" + rest) == Trim(a)
  {
    SplitFirst(a, '\n', rest);
  }

  /** A single date with neither "-" nor a line break is passed on unchanged. */
  lemma DateTextPlain(s: string)
    requires '-' !in s && '\n' !in s
    ensures DateText(s) == s
  {
  }

  /** A non-empty date string reaches the parser as `DateText`; nothing else does. */
  lemma ParseDateCalls(s: string, parse: string -> Option<Day>)
    requires s != ""
    ensures ParseDate(Some(s), parse) == parse(DateText(s))
  {
  }

  // Worked examples, one literal fact per lemma.

  lemma NineMayTrim()
    ensures Trim(" 9 May") == "9 May"
  {
    assert SkipSpaces(" 9 May", 0) == 1;
    assert SkipSpacesBack(" 9 May", 6) == 6;
    assert " 9 May"[1..6] == "9 May";
  }

  lemma NineMayPlain()
    ensures DateText("9 May") == "9 May"
  {
    DateTextPlain("9 May");
  }

  /** "5 May - 9 May" is read as its end date, "9 May". */
  lemma RangeExample()
    ensures DateText("5 May - 9 May") == "9 May"
  {
    assert "5 May - 9 May" == "5 May " + "-" + " 9 May" + [];
    DateTextRange("5 May ", " 9 May", []);
    NineMayTrim();
    NineMayPlain();
  }

  lemma ZeroFiveTrim()
    ensures Trim("05") == "05"
  {
    TrimFixed("05");
  }

  /** An ISO date "2025-05-05" is split at its hyphens too: the parser sees only "05". */
  lemma IsoExample()
    ensures DateText("2025-05-05") == "05"
  {
    assert "2025-05-05" == "2025" + "-" + "05" + "-05";
    DateTextRange("2025", "05", "-05");
    ZeroFiveTrim();
    DateTextPlain("05");
  }

  lemma ThreeMayTrim()
    ensures Trim(" 3 May") == "3 May"
  {
    assert SkipSpaces(" 3 May", 0) == 1;
    assert SkipSpacesBack(" 3 May", 6) == 6;
    assert " 3 May"[1..6] == "3 May";
  }

  /** The range step runs before the line step: "1 May\n2 May - 3 May" is read as "3 May", not "1 May". */
  lemma RangeBeforeLinesExample()
    ensures DateText("1 May\n2 May - 3 May") == "3 May"
  {
    assert "1 May\n2 May - 3 May" == "1 May\n2 May " + "-" + " 3 May" + [];
    DateTextRange("1 May\n2 May ", " 3 May", []);
    ThreeMayTrim();
    DateTextPlain("3 May");
  }
}
