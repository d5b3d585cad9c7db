/** `extractLocation` of lib/utils/location.js (repeated verbatim in lib/search.js and pages/api/ask.js). */
module Location {
  import opened Strings

  /** `parts = name.split("|")`; the second part trimmed, or "Unknown" when there is no "|". */
  function ExtractLocation(name: string): (r: string)
    ensures '|' !in r
    ensures NoEdgeSpace(r)
  {
    var parts := Split(name, '|');
    if |parts| >= 2 then
      SplitJoin(name, '|');
      assert parts[1] in parts;
      TrimSlice(parts[1]);
      Trim(parts[1])
    else
      "Unknown"
  }

  /** A name without "|" has no location. */
  lemma LocationWithoutBar(name: string)
    requires '|' !in name
    ensures ExtractLocation(name) == "Unknown"
  {
    SplitCount(name, '|');
  }

  /** With one "|", the location is what follows it, trimmed; the text before it does not matter. */
  lemma LocationAfterOnlyBar(a: string, m: string)
    requires '|' !in a && '|' !in m
    ensures ExtractLocation(a + "|" + m) == Trim(m)
  {
    SplitFirstTwo(a, '|', m, []);
    assert a + "|" + m + [] == a + "|" + m;
  }

  /** With two or more "|", the location is the text between the first two, trimmed; text outside them does not matter. */
  lemma LocationBetweenBars(a: string, m: string, b: string)
    requires '|' !in a && '|' !in m
    ensures ExtractLocation(a + "|" + m + "|" + b) == Trim(m)
  {
    SplitFirstTwo(a, '|', m, "|" + b);
    assert a + "|" + m + ("|" + b) == a + "|" + m + "|" + b;
  }

  /** Every name with a "|" is one of the two shapes above: with `i` the first "|" and `j` the next "|" (or the end), the location is the trimmed text between them. */
  lemma LocationSegment(name: string, i: nat, j: nat)
    requires i < j <= |name| && name[i] == '|' && '|' !in name[..i]
    requires '|' !in name[i + 1..j] && (j < |name| ==> name[j] == '|')
    ensures ExtractLocation(name) == Trim(name[i + 1..j])
  {
    var a, m, b := name[..i], name[i + 1..j], name[j..];
    if j == |name| {
      assert name == a + "|" + m;
      LocationAfterOnlyBar(a, m);
    } else {
      assert name == a + "|" + m + "|" + name[j + 1..];
      LocationBetweenBars(a, m, name[j + 1..]);
    }
  }
}
