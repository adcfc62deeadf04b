/**
 * The title clean-up shared by the TV and Movie parsers: resolution detection, the search
 * bounds, and the two helpers that turn '.'/'_' into spaces and cut bracketed groups out of a
 * title.
 */
module MetadataOps {
  import opened Wrappers
  import opened Text
  import opened Matching

  const ResUnknown: string := "Unknown"
  const EpisodeUnknown: string := "Special"
  /** Exclusive upper bound of the legacy season search. */
  const MaxNumberOfSeasons: nat := 15
  /** Exclusive upper bound of the legacy episode search. */
  const MaxNumberOfEpisodes: nat := 300

  /** The characters turned into spaces, in the order they are handled. */
  const UnwantedSpaces: seq<char> := ['.', '_']
  /** Leading/trailing bracket pairs, flattened: `[`, `]`, `(`, `)`. */
  const UnwantedBrackets: seq<char> := ['[', ']', '(', ')']

  // ---------------------------------------------------------------- resolution

  /** One resolution pattern: `(<width>\s?x\s?)?(?<Resolution><label>p?)`. */
  datatype ResolutionPattern = ResolutionPattern(width: string, digits: string)

  const ResolutionPatterns: seq<ResolutionPattern> := [
    ResolutionPattern("1920", "1080"),
    ResolutionPattern("1280", "720"),
    ResolutionPattern("854", "480")
  ]

  /** `\s`: space, tab, newline, vertical tab, form feed, carriage return. */
  predicate IsWhitespace(c: char) {
    c == ' ' || c == '\t' || c == '\n' || c == '\U{0B}' || c == '\U{0C}' || c == '\r'
  }

  function SkipOptionalWhitespace(s: string, k: nat): (r: nat)
    ensures r == k || r == k + 1
  {
    if k < |s| && IsWhitespace(s[k]) then k + 1 else k
  }

  /** The Resolution group of a match of `pat` whose label starts at q, if there is one. */
  function LabelAt(s: string, pat: ResolutionPattern, q: nat): (g: Option<string>)
    ensures g.Some? <==> OccursAt(s, pat.digits, q)
    ensures g.Some? ==> Contains(s, pat.digits)
    ensures g.Some? ==> g.value == pat.digits || g.value == pat.digits + "p"
  {
    if !OccursAt(s, pat.digits, q) then None
    else
      OccursImpliesContains(s, pat.digits, q);
      var e := q + |pat.digits|;
      Some(if e < |s| && s[e] == 'p' then pat.digits + "p" else pat.digits)
  }

  /** A match of `pat` starting at p: the optional `<width>\s?x\s?` group is tried first. */
  function ResolutionMatchAt(s: string, pat: ResolutionPattern, p: nat): (g: Option<string>)
    ensures g.Some? ==> Contains(s, pat.digits)
    ensures g.Some? ==> g.value == pat.digits || g.value == pat.digits + "p"
    ensures OccursAt(s, pat.digits, p) ==> g.Some?
  {
    var withWidth :=
      if OccursAt(s, pat.width, p) then
        var k1 := SkipOptionalWhitespace(s, p + |pat.width|);
        if k1 < |s| && s[k1] == 'x' then LabelAt(s, pat, SkipOptionalWhitespace(s, k1 + 1)) else None
      else None;
    if withWidth.Some? then withWidth else LabelAt(s, pat, p)
  }

  function ResolutionMatcher(s: string, pat: ResolutionPattern): nat -> Option<string> {
    (q: nat) => ResolutionMatchAt(s, pat, q)
  }

  /** Matcher.find of one resolution pattern: the Resolution group of the leftmost match. */
  function FindResolution(s: string, pat: ResolutionPattern): Option<string> {
    var found := Leftmost(ResolutionMatcher(s, pat), 0, |s|);
    if found.Some? then Some(found.value.1) else None
  }

  predicate IsBlank(s: string) {
    forall i :: 0 <= i < |s| ==> Trimmable(s[i])
  }

  /** The first pattern (from index i on) that finds a resolution decides the result. */
  function ResolutionFrom(fn: string, i: nat): string
    requires i <= |ResolutionPatterns|
    decreases |ResolutionPatterns| - i
  {
    if i == |ResolutionPatterns| then ResUnknown
    else match FindResolution(fn, ResolutionPatterns[i])
      case Some(g) =>
        if !IsBlank(g) then
          var trimmed := Trim(g);
          trimmed + (if EndsWith(trimmed, "p") then "" else "p")
        else ResolutionFrom(fn, i + 1)
      case None => ResolutionFrom(fn, i + 1)
  }

  /** MetadataOps.getResolution. */
  function GetResolution(fn: string): (r: string)
    ensures r in {"1080p", "720p", "480p", ResUnknown}
  {
    ResolutionFromLemma(fn, 0);
    assert ResolutionPatterns[0].digits + "p" == "1080p";
    assert ResolutionPatterns[1].digits + "p" == "720p";
    assert ResolutionPatterns[2].digits + "p" == "480p";
    ResolutionFrom(fn, 0)
  }

  /** Reference definition: the first label the name contains, with a 'p'; otherwise "Unknown". */
  function FirstContainedLabel(fn: string, i: nat): string
    requires i <= |ResolutionPatterns|
    decreases |ResolutionPatterns| - i
  {
    if i == |ResolutionPatterns| then ResUnknown
    else if Contains(fn, ResolutionPatterns[i].digits) then ResolutionPatterns[i].digits + "p"
    else FirstContainedLabel(fn, i + 1)
  }

  /**
   * A resolution pattern finds something exactly when its label occurs in the name, and what
   * it finds is the label, with or without a trailing 'p': the optional width prefix changes
   * neither.
   */
  lemma FindResolutionLemma(s: string, pat: ResolutionPattern)
    ensures FindResolution(s, pat).Some? <==> Contains(s, pat.digits)
    ensures FindResolution(s, pat).Some? ==>
      FindResolution(s, pat).value == pat.digits || FindResolution(s, pat).value == pat.digits + "p"
  {
    var found := Leftmost(ResolutionMatcher(s, pat), 0, |s|);
    if Contains(s, pat.digits) {
      var i := IndexOf(s, pat.digits).value;
      assert ResolutionMatcher(s, pat)(i).Some?;
    }
  }

  /** Whatever a resolution pattern found, the result is its label followed by one 'p'. */
  lemma LabelResultLemma(g: string, digits: string)
    requires |digits| > 0 && AllDigits(digits)
    requires g == digits || g == digits + "p"
    ensures !IsBlank(g)
    ensures Trim(g) + (if EndsWith(Trim(g), "p") then "" else "p") == digits + "p"
  {
    assert !Trimmable(g[0]);
    assert !Trimmable(g[|g| - 1]);
    assert Trim(g) == g;
    if g == digits {
      assert g[|g| - 1] != 'p';
    } else {
      assert g[|g| - 1] == 'p';
    }
  }

  /** getResolution agrees with the reference definition: the prefix and the 'p' do not matter. */
  lemma {:induction false} ResolutionFromLemma(fn: string, i: nat)
    requires i <= |ResolutionPatterns|
    ensures ResolutionFrom(fn, i) == FirstContainedLabel(fn, i)
    decreases |ResolutionPatterns| - i
  {
    if i < |ResolutionPatterns| {
      ResolutionStep(fn, i);
      ResolutionFromLemma(fn, i + 1);
    }
  }

  /** One pattern of getResolution: its label with a 'p' when the name contains the label, else the next pattern. */
  lemma ResolutionStep(fn: string, i: nat)
    requires i < |ResolutionPatterns|
    ensures var digits := ResolutionPatterns[i].digits;
      ResolutionFrom(fn, i) == if Contains(fn, digits) then digits + "p" else ResolutionFrom(fn, i + 1)
  {
    var pat := ResolutionPatterns[i];
    assert |pat.digits| > 0 && AllDigits(pat.digits);
    FindResolutionLemma(fn, pat);
    var found := FindResolution(fn, pat);
    if found.Some? {
      LabelResultLemma(found.value, pat.digits);
    }
  }

  /** Any name containing "1080" is 1080p, whatever surrounds it; 720 and 480 only when 1080 is absent. */
  lemma GetResolutionLemma(fn: string)
    ensures Contains(fn, "1080") ==> GetResolution(fn) == "1080p"
    ensures !Contains(fn, "1080") && Contains(fn, "720") ==> GetResolution(fn) == "720p"
    ensures !Contains(fn, "1080") && !Contains(fn, "720") && Contains(fn, "480") ==> GetResolution(fn) == "480p"
    ensures GetResolution(fn) == ResUnknown <==>
      !Contains(fn, "1080") && !Contains(fn, "720") && !Contains(fn, "480")
  {
    ResolutionFromLemma(fn, 0);
    assert ResolutionPatterns[0].digits + "p" == "1080p";
    assert ResolutionPatterns[1].digits + "p" == "720p";
    assert ResolutionPatterns[2].digits + "p" == "480p";
  }

  // ---------------------------------------------------------------- spaces

  /** One step of removeUnwantedSpaces: if `e` occurs, every `e` becomes a space, then trim. */
  function SpaceOut(s: string, e: char): string {
    if Contains(s, [e]) then Trim(ReplaceAll(s, [e], " ")) else s
  }

  /** removeUnwantedSpaces: `.` and then `_` turned into spaces, trimming after each change. */
  function UnwantedSpacesRemoved(s: string): (r: string)
    ensures '.' !in r && '_' !in r
  {
    SpaceOutLemma(s, '.', '_');
    SpaceOutLemma(SpaceOut(s, '.'), '_', '.');
    SpaceOut(SpaceOut(s, '.'), '_')
  }

  /** A name with neither '.' nor '_' is left as it is. */
  lemma NoUnwantedUnchanged(s: string)
    requires '.' !in s && '_' !in s
    ensures UnwantedSpacesRemoved(s) == s
  {
    ContainsChar(s, '.');
    ContainsChar(s, '_');
  }

  /** After a step for `e`, `e` is gone, and a character `d` other than a space comes back only if it was there. */
  lemma SpaceOutLemma(s: string, e: char, d: char)
    requires e != ' ' && d != ' '
    ensures e !in SpaceOut(s, e)
    ensures d in SpaceOut(s, e) ==> d in s
  {
    if Contains(s, [e]) {
      ReplaceOneCharLemma(s, e, ' ');
      var t := ReplaceChar(s, e, ' ');
      if d in Trim(t) {
        var i :| 0 <= i < |t| && t[i] == d;
      }
    } else {
      if e in s {
        var i :| 0 <= i < |s| && s[i] == e;
        assert s[i..i + 1] == [e];
        OccursImpliesContains(s, [e], i);
      }
    }
  }

  /** removeUnwantedSpaces introduces no character other than the space. */
  lemma UnwantedSpacesKeepsChars(s: string, d: char)
    requires d != ' ' && d in UnwantedSpacesRemoved(s)
    ensures d in s
  {
    SpaceOutLemma(SpaceOut(s, '.'), '_', d);
    SpaceOutLemma(s, '.', d);
  }

  /** removeUnwantedSpaces, as the loop over the unwanted characters that it is. */
  method RemoveUnwantedSpaces(s: string) returns (r: string)
    ensures r == UnwantedSpacesRemoved(s)
    ensures '.' !in r && '_' !in r
  {
    r := s;
    for i := 0 to |UnwantedSpaces|
      invariant i == 0 ==> r == s
      invariant i == 1 ==> r == SpaceOut(s, '.')
      invariant i == 2 ==> r == SpaceOut(SpaceOut(s, '.'), '_')
    {
      var e := UnwantedSpaces[i];
      if Contains(r, [e]) {
        r := Trim(ReplaceAll(r, [e], " "));
      }
    }
  }

  // ---------------------------------------------------------------- brackets

  /** The positions a scan may have recorded: 0, or a position holding the bracket it stands for. */
  predicate Recorded(s: string, idx: nat, bracket: char) {
    idx == 0 || (idx < |s| && s[idx] == bracket)
  }

  /**
   * The scan inside removeBrackets: from position k on, while idx1 < idx2 does not hold, a
   * leading bracket sets idx1 and otherwise a trailing bracket sets idx2. Both start at 0, so a
   * trailing bracket before any leading one already gives idx1 = 0 < idx2.
   */
  function Scan(s: string, lead: char, trail: char, k: nat, idx1: nat, idx2: nat): (r: (nat, nat))
    requires k <= |s| && Recorded(s, idx1, lead) && Recorded(s, idx2, trail)
    ensures Recorded(s, r.0, lead) && Recorded(s, r.1, trail)
    ensures r.0 < r.1 ==> r.1 < |s|
    decreases |s| - k
  {
    if k >= |s| || idx1 < idx2 then (idx1, idx2)
    else if s[k] == lead then Scan(s, lead, trail, k + 1, k, idx2)
    else if s[k] == trail then Scan(s, lead, trail, k + 1, idx1, k)
    else Scan(s, lead, trail, k + 1, idx1, idx2)
  }

  /**
   * The while loop of removeBrackets for one bracket pair: as long as the leading bracket
   * occurs, scan, and cut every occurrence of s[idx1..idx2] out. When a scan ends without
   * idx1 < idx2 nothing changes and the Java loop repeats the same scan forever; that is None.
   */
  function StripPair(s: string, lead: char, trail: char): (r: Option<string>)
    ensures r.Some? ==> lead !in r.value
    decreases |s|
  {
    if lead !in s then Some(s)
    else
      var scan := Scan(s, lead, trail, 0, 0, 0);
      if scan.0 < scan.1 then
        var cut := s[scan.0..scan.1 + 1];
        CutShortens(s, scan.0, scan.1);
        StripPair(Remove(s, cut), lead, trail)
      else None
  }

  /** Cutting bracketed groups out introduces no character that was not there. */
  lemma {:induction false} StripPairKeepsChars(s: string, lead: char, trail: char, c: char)
    requires StripPair(s, lead, trail).Some? && c in StripPair(s, lead, trail).value
    ensures c in s
    decreases |s|, 1
  {
    if lead in s {
      var scan := Scan(s, lead, trail, 0, 0, 0);
      if scan.0 < scan.1 {
        StripPairKeepsCharsCut(s, lead, trail, c, scan.0, scan.1);
      } else {
        StripPairStuck(s, lead, trail);
      }
    }
  }

  /** The step of StripPairKeepsChars for a pass that cuts s[idx1..idx2] out. */
  lemma {:induction false} StripPairKeepsCharsCut(s: string, lead: char, trail: char, c: char, idx1: nat, idx2: nat)
    requires lead in s && idx1 == Scan(s, lead, trail, 0, 0, 0).0 && idx2 == Scan(s, lead, trail, 0, 0, 0).1
    requires idx1 < idx2
    requires StripPair(s, lead, trail).Some? && c in StripPair(s, lead, trail).value
    ensures c in s
    decreases |s|, 0
  {
    StripPairCut(s, lead, trail, idx1, idx2);
    var cut := s[idx1..idx2 + 1];
    CutShortens(s, idx1, idx2);
    StripPairKeepsChars(Remove(s, cut), lead, trail, c);
    RemoveKeepsChars(s, cut, c);
  }

  /** The outer loop of removeBrackets: the pairs from index `idx` (stepping by two) on. */
  function StripPairsFrom(s: string, idx: nat): Option<string>
    requires idx % 2 == 0 && idx <= |UnwantedBrackets|
    decreases |UnwantedBrackets| - idx
  {
    if idx + 1 >= |UnwantedBrackets| then Some(s)
    else match StripPair(s, UnwantedBrackets[idx], UnwantedBrackets[idx + 1])
      case None => None
      case Some(t) => StripPairsFrom(t, idx + 2)
  }

  /** removeBrackets: `[...]` groups first, then `(...)` groups; None where the source never returns. */
  function BracketsRemoved(s: string): Option<string> {
    StripPairsFrom(s, 0)
  }

  /** A pass whose scan finds idx1 < idx2 cuts s[idx1..idx2] out, leaving a shorter name. */
  lemma StripPairCut(s: string, lead: char, trail: char, idx1: nat, idx2: nat)
    requires lead in s && idx1 == Scan(s, lead, trail, 0, 0, 0).0 && idx2 == Scan(s, lead, trail, 0, 0, 0).1
    requires idx1 < idx2
    ensures idx2 < |s|
    ensures StripPair(s, lead, trail) == StripPair(Remove(s, s[idx1..idx2 + 1]), lead, trail)
  {
  }

  /** Cutting out a group that occurs leaves a strictly shorter name. */
  lemma CutShortens(s: string, i: nat, j: nat)
    requires i <= j < |s|
    ensures |Remove(s, s[i..j + 1])| < |s|
  {
    OccursImpliesContains(s, s[i..j + 1], i);
    RemoveShortens(s, s[i..j + 1]);
  }

  /** A pass whose scan does not find idx1 < idx2 changes nothing, so the loop never ends. */
  lemma StripPairStuck(s: string, lead: char, trail: char)
    requires lead in s && Scan(s, lead, trail, 0, 0, 0).0 >= Scan(s, lead, trail, 0, 0, 0).1
    ensures StripPair(s, lead, trail) == None
  {
  }

  /** The for loop of removeBrackets: scan until idx1 < idx2 or the end of the name. */
  method ScanForPair(name: string, leading: char, trailing: char) returns (idx1: nat, idx2: nat)
    ensures (idx1, idx2) == Scan(name, leading, trailing, 0, 0, 0)
  {
    idx1, idx2 := 0, 0;
    var snIdx := 0;
    while snIdx < |name| && !(idx1 < idx2)
      invariant snIdx <= |name| && Recorded(name, idx1, leading) && Recorded(name, idx2, trailing)
      invariant Scan(name, leading, trailing, snIdx, idx1, idx2) == Scan(name, leading, trailing, 0, 0, 0)
      decreases |name| - snIdx
    {
      var c := name[snIdx];
      if c == leading {
        idx1 := snIdx;
      } else if c == trailing {
        idx2 := snIdx;
      }
      snIdx := snIdx + 1;
    }
  }

  /** The while loop of removeBrackets for one bracket pair; None where the Java loop never exits. */
  method StripPairLoop(seriesName: string, leading: char, trailing: char) returns (r: Option<string>)
    ensures r == StripPair(seriesName, leading, trailing)
  {
    var name := seriesName;
    while leading in name
      invariant StripPair(name, leading, trailing) == StripPair(seriesName, leading, trailing)
      decreases |name|
    {
      var idx1, idx2 := ScanForPair(name, leading, trailing);
      if idx1 < idx2 {
        var cut := name[idx1..idx2 + 1];
        var next := Remove(name, cut);
        StripPairCut(name, leading, trailing, idx1, idx2);
        CutShortens(name, idx1, idx2);
        name := next;
      } else {
        StripPairStuck(name, leading, trailing);
        return None;
      }
    }
    return Some(name);
  }

  /** removeBrackets: one pass per bracket pair; None where the Java loop would spin forever. */
  method RemoveBrackets(seriesName: string) returns (r: Option<string>)
    ensures r == BracketsRemoved(seriesName)
  {
    var name := seriesName;
    var bracketArrIdx := 0;
    while bracketArrIdx < |UnwantedBrackets| - 1
      invariant bracketArrIdx % 2 == 0 && bracketArrIdx <= |UnwantedBrackets|
      invariant StripPairsFrom(name, bracketArrIdx) == BracketsRemoved(seriesName)
    {
      var stripped := StripPairLoop(name, UnwantedBrackets[bracketArrIdx], UnwantedBrackets[bracketArrIdx + 1]);
      if stripped.None? {
        return None;
      }
      name := stripped.value;
      bracketArrIdx := bracketArrIdx + 2;
    }
    r := Some(name);
  }

  /** A title without `[` and without `(` comes back unchanged. */
  lemma NoBracketsUnchanged(s: string)
    requires '[' !in s && '(' !in s
    ensures BracketsRemoved(s) == Some(s)
  {
  }

  /** Whatever removeBrackets returns holds no leading bracket and no character that was not there. */
  lemma BracketsRemovedLemma(s: string)
    requires BracketsRemoved(s).Some?
    ensures '[' !in BracketsRemoved(s).value && '(' !in BracketsRemoved(s).value
    ensures forall c :: c in BracketsRemoved(s).value ==> c in s
  {
    var t := StripPair(s, '[', ']').value;
    var r := StripPair(t, '(', ')');
    assert BracketsRemoved(s) == r;
    if '[' in r.value {
      StripPairKeepsChars(t, '(', ')', '[');
    }
    forall c | c in r.value ensures c in s {
      StripPairKeepsChars(t, '(', ')', c);
      StripPairKeepsChars(s, '[', ']', c);
    }
  }

  /** A leading bracket that no trailing bracket follows makes removeBrackets run forever. */
  lemma UnclosedBracketDiverges()
    ensures BracketsRemoved("[abc") == None
  {
    assert Scan("[abc", '[', ']', 0, 0, 0) == (0, 0);
  }

  lemma ScanStrayExample()
    ensures Scan("a]b[c]", '[', ']', 0, 0, 0) == (0, 1)
    ensures Scan("b[c]", '[', ']', 0, 0, 0) == (1, 3)
  {
    assert Scan("a]b[c]", '[', ']', 2, 0, 1) == (0, 1);
    assert Scan("b[c]", '[', ']', 4, 1, 3) == (1, 3);
  }

  lemma RemovePrefixExample()
    ensures Remove("a]b[c]", "a]") == "b[c]"
  {
    var s := "a]b[c]";
    var t := "b[c]";
    assert OccursAt(s, "a]", 0);
    assert IndexOf(s, "a]") == Some(0);
    assert s[2..] == t;
    assert t[0..2][0] == 'b' && t[1..3][0] == '[' && t[2..4][0] == 'c';
    assert !OccursAt(t, "a]", 0) && !OccursAt(t, "a]", 1) && !OccursAt(t, "a]", 2);
    assert IndexOf(t, "a]") == None;
  }

  lemma RemoveGroupExample()
    ensures Remove("b[c]", "[c]") == "b"
  {
    var t := "b[c]";
    assert t[0..3][0] == 'b';
    assert !OccursAt(t, "[c]", 0);
    assert OccursAt(t, "[c]", 1);
    assert IndexOf(t, "[c]") == Some(1);
    assert t[4..] == "";
    assert IndexOf("", "[c]") == None;
  }

  /** A trailing bracket before any leading one cuts away everything before it. */
  lemma StrayTrailingBracketCutsPrefix()
    ensures BracketsRemoved("a]b[c]") == Some("b")
  {
    var s := "a]b[c]";
    var t := "b[c]";
    ScanStrayExample();
    RemovePrefixExample();
    RemoveGroupExample();
    assert s[0..2] == "a]";
    assert t[1..4] == "[c]";
    StripPairCut(s, '[', ']', 0, 1);
    StripPairCut(t, '[', ']', 1, 3);
    assert StripPair("b", '[', ']') == Some("b");
    assert StripPair(s, '[', ']') == Some("b");
    assert StripPair("b", '(', ')') == Some("b");
  }
}
