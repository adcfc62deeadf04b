/**
 * The fixed regular expressions of the TV parser, each written out as the scanner it amounts
 * to. `MatchAt(pat, s, p)` is the match java.util.regex would report when trying `pat` at
 * position p (after its backtracking), `Find` is Matcher.find: the leftmost position that
 * matches. Case-insensitive patterns fold ASCII letters only, as Java does without UNICODE_CASE.
 */
module TVPatterns {
  import opened Wrappers
  import opened Text
  import opened Matching

  /** The end of the run of digits starting at i. */
  function DigitRunEnd(s: string, i: nat): (r: nat)
    requires i <= |s|
    ensures i <= r <= |s| && AllDigits(s[i..r]) && (r < |s| ==> !IsDigit(s[r]))
    decreases |s| - i
  {
    if i < |s| && IsDigit(s[i]) then DigitRunEnd(s, i + 1) else i
  }

  /** The end of the run of spaces starting at i. */
  function SpaceRunEnd(s: string, i: nat): (r: nat)
    requires i <= |s|
    ensures i <= r <= |s| && (forall k :: i <= k < r ==> s[k] == ' ') && (r < |s| ==> s[r] != ' ')
    decreases |s| - i
  {
    if i < |s| && s[i] == ' ' then SpaceRunEnd(s, i + 1) else i
  }

  predicate CharAt(s: string, k: nat, c: char) {
    k < |s| && s[k] == c
  }

  /** Case-insensitive comparison with a lower-case word. */
  predicate WordAt(s: string, k: nat, w: string) {
    k + |w| <= |s| && Lower(s[k..k + |w|]) == w
  }

  /** `0*[1-9][0-9]*|0` matching a whole digit run: not two or more zeros only. */
  predicate StrictNumeral(d: string) {
    |d| == 1 || exists k :: 0 <= k < |d| && d[k] != '0'
  }

  /** What one match of a pattern reports: where group 0 ends, and the season and episode groups. */
  datatype Hit = Hit(end: nat, season: Option<nat>, episode: Option<nat>)

  datatype Pattern =
    | SeasonAndEpisode          // (?i)(?: *- ?)? ?(S(0*[1-9][0-9]*|0)) *(E(0*([1-9][0-9]*|0)))
    | SeasonWordEpisodeWord     // (?i)(?:(?: *- ?)? ?(Season ?\b(…)))? *(?: *- ?)? *(Episode ?\b(…))
    | SeasonCrossEpisode        // (?i)(?: *- ?)? ?((0*([1-9][0-9]*|0))) *x *(?: *- ?)? *((0*([1-9][0-9]*|0)))
    | DashEpisode               //  *- ? *(E?(0*([1-9][0-9]*|0)))
    | TrailingEpisode           // (E?(0*([1-9][0-9]*|0)))$
    | SeasonWord                // (?i)(Season ?\b(0*([1-9][0-9]*|0)))
    | SeasonLetter              // (?i)(S(0*([1-9][0-9]*|0))) +

  const RegexSeasonAndEp: seq<Pattern> := [SeasonAndEpisode, SeasonWordEpisodeWord, SeasonCrossEpisode]
  const RegexSoloEp: seq<Pattern> := [DashEpisode, TrailingEpisode]
  const RegexSoloSeason: seq<Pattern> := [SeasonWord, SeasonLetter]

  /** The part of a pattern after its optional `(?: *- ?)? ?` lead-in. */
  datatype Core = SeasonLetterCore | SeasonWordCore | CrossCore

  /** A non-empty digit run starting at i: its end and value. */
  function NumberAt(s: string, i: nat): (r: Option<(nat, nat)>)
    requires i <= |s|
    ensures r.Some? ==> i < r.value.0 <= |s| && AllDigits(s[i..r.value.0])
    ensures r.Some? ==> r.value.1 == DecimalValue(s[i..r.value.0])
  {
    var d := DigitRunEnd(s, i);
    if d > i then Some((d, DecimalValue(s[i..d]))) else None
  }

  /** ` *(?: *- ?)? *`: spaces, at most one dash, spaces. */
  function SkipDashSeparator(s: string, r: nat): (k: nat)
    requires r <= |s|
    ensures r <= k <= |s|
  {
    var r1 := SpaceRunEnd(s, r);
    if CharAt(s, r1, '-') then SpaceRunEnd(s, r1 + 1) else r1
  }

  function CoreAt(core: Core, s: string, q: nat): (h: Option<Hit>)
    requires q <= |s|
    ensures h.Some? ==> q < h.value.end <= |s| && h.value.season.Some?
    ensures h.Some? && core != SeasonWordCore ==> h.value.episode.Some?
  {
    match core
    case SeasonLetterCore =>
      // S(0*[1-9][0-9]*|0) *E(0*([1-9][0-9]*|0))
      if CharAt(s, q, 'S') || CharAt(s, q, 's') then
        var d1 := DigitRunEnd(s, q + 1);
        if d1 > q + 1 && StrictNumeral(s[q + 1..d1]) then
          var e := SpaceRunEnd(s, d1);
          if CharAt(s, e, 'E') || CharAt(s, e, 'e') then
            match NumberAt(s, e + 1)
            case Some((d2, episode)) => Some(Hit(d2, Some(DecimalValue(s[q + 1..d1])), Some(episode)))
            case None => None
          else None
        else None
      else None
    case SeasonWordCore =>
      // Season ?\b(0*([1-9][0-9]*|0)): the word boundary leaves exactly one space
      if WordAt(s, q, "season ") then
        match NumberAt(s, q + 7)
        case Some((d, season)) => Some(Hit(d, Some(season), None))
        case None => None
      else None
    case CrossCore =>
      // (0*([1-9][0-9]*|0)) *x *(?: *- ?)? *(0*([1-9][0-9]*|0))
      match NumberAt(s, q)
      case None => None
      case Some((d1, season)) =>
        var x := SpaceRunEnd(s, d1);
        if CharAt(s, x, 'x') || CharAt(s, x, 'X') then
          match NumberAt(s, SkipDashSeparator(s, x + 1))
          case Some((d2, episode)) => Some(Hit(d2, Some(season), Some(episode)))
          case None => None
        else None
  }

  /**
   * `(?: *- ?)? ?` followed by a core, tried at p. With the dash: the spaces before it, the
   * dash, then at most two spaces before the core; without it: one optional space.
   */
  function LeadInAt(core: Core, s: string, p: nat): (h: Option<Hit>)
    requires p <= |s|
    ensures h.Some? ==> p < h.value.end <= |s| && h.value.season.Some?
    ensures h.Some? && core != SeasonWordCore ==> h.value.episode.Some?
  {
    var k := SpaceRunEnd(s, p);
    var viaDash :=
      if CharAt(s, k, '-') then
        var q := SpaceRunEnd(s, k + 1);
        if q - (k + 1) <= 2 then CoreAt(core, s, q) else None
      else None;
    if viaDash.Some? then viaDash
    else CoreAt(core, s, if CharAt(s, p, ' ') then p + 1 else p)
  }

  /** ` *(?: *- ?)? *(Episode ?\b(0*([1-9][0-9]*|0)))` from r: its end and episode number. */
  function EpisodeWordAt(s: string, r: nat): (h: Option<(nat, nat)>)
    requires r <= |s|
    ensures h.Some? ==> r < h.value.0 <= |s|
  {
    var k := SkipDashSeparator(s, r);
    if WordAt(s, k, "episode ") then NumberAt(s, k + 8) else None
  }

  function MatchAt(pat: Pattern, s: string, p: nat): (h: Option<Hit>)
    ensures h.Some? ==> p < h.value.end <= |s|
    ensures h.Some? && pat in RegexSeasonAndEp ==> h.value.episode.Some?
    ensures h.Some? && (pat == SeasonAndEpisode || pat == SeasonCrossEpisode) ==> h.value.season.Some?
    ensures h.Some? && pat in RegexSoloEp ==> h.value.episode.Some?
    ensures h.Some? && pat in RegexSoloSeason ==> h.value.season.Some?
  {
    if p > |s| then None
    else match pat
      case SeasonAndEpisode => LeadInAt(SeasonLetterCore, s, p)
      case SeasonWordEpisodeWord =>
        // the optional season group is tried first, then the match without it
        var withSeason :=
          match LeadInAt(SeasonWordCore, s, p)
          case Some(g) =>
            (match EpisodeWordAt(s, g.end)
             case Some((e, episode)) => Some(Hit(e, g.season, Some(episode)))
             case None => None)
          case None => None;
        if withSeason.Some? then withSeason
        else
          (match EpisodeWordAt(s, p)
           case Some((e, episode)) => Some(Hit(e, None, Some(episode)))
           case None => None)
      case SeasonCrossEpisode => LeadInAt(CrossCore, s, p)
      case DashEpisode =>
        var k := SpaceRunEnd(s, p);
        if CharAt(s, k, '-') then
          var r := SpaceRunEnd(s, k + 1);
          var e := if CharAt(s, r, 'E') && r + 1 < |s| && IsDigit(s[r + 1]) then r + 1 else r;
          match NumberAt(s, e)
          case Some((d, episode)) => Some(Hit(d, None, Some(episode)))
          case None => None
        else None
      case TrailingEpisode =>
        var e := if CharAt(s, p, 'E') then p + 1 else p;
        (match NumberAt(s, e)
         case Some((d, episode)) => if d == |s| then Some(Hit(d, None, Some(episode))) else None
         case None => None)
      case SeasonWord => CoreAt(SeasonWordCore, s, p)
      case SeasonLetter =>
        if CharAt(s, p, 'S') || CharAt(s, p, 's') then
          match NumberAt(s, p + 1)
          case Some((d, season)) =>
            var e := SpaceRunEnd(s, d);
            if e > d then Some(Hit(e, Some(season), None)) else None
          case None => None
        else None
  }

  function Matcher(pat: Pattern, s: string): nat -> Option<Hit> {
    (q: nat) => MatchAt(pat, s, q)
  }

  /** Matcher.find: the leftmost match, as its start and what it reports. */
  function Find(pat: Pattern, s: string): (r: Option<(nat, Hit)>)
    ensures r.Some? ==> r.value.0 < r.value.1.end <= |s|
    ensures r.Some? && pat in RegexSeasonAndEp ==> r.value.1.episode.Some?
    ensures r.Some? && (pat == SeasonAndEpisode || pat == SeasonCrossEpisode) ==> r.value.1.season.Some?
    ensures r.Some? && pat in RegexSoloEp ==> r.value.1.episode.Some?
    ensures r.Some? && pat in RegexSoloSeason ==> r.value.1.season.Some?
  {
    var at := Matcher(pat, s);
    var r := Leftmost(at, 0, |s|);
    assert r.Some? ==> at(r.value.0) == MatchAt(pat, s, r.value.0);
    r
  }

  /**
   * The match Matcher.find reports is what the pattern gives at its start, and the leftmost one:
   * the pattern matches at no earlier position.
   */
  lemma FindLeftmost(pat: Pattern, s: string)
    ensures var r := Find(pat, s);
      r.Some? ==> MatchAt(pat, s, r.value.0) == Some(r.value.1) && forall q: nat :: q < r.value.0 ==> MatchAt(pat, s, q).None?
    ensures Find(pat, s).None? ==> forall q: nat :: MatchAt(pat, s, q).None?
  {
    var at := Matcher(pat, s);
    assert forall q: nat :: at(q) == MatchAt(pat, s, q);
  }

  /** Group 0 of a match found at p. */
  function Group0(s: string, p: nat, h: Hit): string
    requires p < h.end <= |s|
  {
    s[p..h.end]
  }

  // ---------------------------------------------------------------- legacy patterns

  /** The three patterns of the legacy episode search (case-insensitive). */
  datatype LegacyPattern =
    | EpisodeWordNumber   // (?<seq>Episode (?<num>\d{1,3}))
    | LetterNumber        //  ?(?<seq>E(?<num>\d{1,3})+)
    | DashNumber          // (?<seq>- (?<num>\d{1,3}))

  const LegacyRegex: seq<LegacyPattern> := [EpisodeWordNumber, LetterNumber, DashNumber]

  /** The `seq` group as a span, and the `num` group as a span. */
  datatype LegacyHit = LegacyHit(seqStart: nat, seqEnd: nat, numStart: nat, numEnd: nat)

  predicate WellFormedLegacyHit(s: string, h: LegacyHit) {
    h.seqStart <= h.numStart < h.numEnd <= h.seqEnd <= |s| && AllDigits(s[h.numStart..h.numEnd])
  }

  /** A literal lead of length `lead` at p followed by \d{1,3}: the greedy 1 to 3 digits. */
  function LeadThenDigits(s: string, p: nat, lead: nat): (h: Option<LegacyHit>)
    requires p + lead <= |s|
    ensures h.Some? ==> WellFormedLegacyHit(s, h.value) && h.value.seqStart == p
  {
    var a := p + lead;
    var d := DigitRunEnd(s, a);
    var n := if d - a > 3 then a + 3 else d;
    if d > a then
      assert AllDigits(s[a..n]) by {
        forall k | 0 <= k < n - a ensures IsDigit(s[a..n][k]) {
          assert s[a..n][k] == s[a..d][k];
        }
      }
      Some(LegacyHit(p, n, a, n))
    else None
  }

  /** ` ?(E(\d{1,3})+)`: E and the whole digit run; `num` holds the last group of at most three. */
  function LetterNumberAt(s: string, p: nat): (h: Option<LegacyHit>)
    requires p <= |s|
    ensures h.Some? ==> WellFormedLegacyHit(s, h.value) && p <= h.value.seqStart
  {
    var q := if CharAt(s, p, ' ') then p + 1 else p;
    if CharAt(s, q, 'E') || CharAt(s, q, 'e') then
      var d := DigitRunEnd(s, q + 1);
      if d > q + 1 then
        var last := (d - (q + 1) - 1) % 3 + 1;
        assert s[d - last..d] == s[q + 1..d][d - last - (q + 1)..];
        Some(LegacyHit(q, d, d - last, d))
      else None
    else None
  }

  function LegacyMatchAt(pat: LegacyPattern, s: string, p: nat): (h: Option<LegacyHit>)
    ensures h.Some? ==> WellFormedLegacyHit(s, h.value) && p <= h.value.seqStart
  {
    if p > |s| then None
    else match pat
      case EpisodeWordNumber => if WordAt(s, p, "episode ") then LeadThenDigits(s, p, 8) else None
      case LetterNumber => LetterNumberAt(s, p)
      case DashNumber => if OccursAt(s, "- ", p) then LeadThenDigits(s, p, 2) else None
  }

  function LegacyMatcher(pat: LegacyPattern, s: string): nat -> Option<LegacyHit> {
    (q: nat) => LegacyMatchAt(pat, s, q)
  }

  /** Matcher.find for a legacy pattern. */
  function LegacyFind(pat: LegacyPattern, s: string): (r: Option<LegacyHit>)
    ensures r.Some? ==> WellFormedLegacyHit(s, r.value)
  {
    var r := Leftmost(LegacyMatcher(pat, s), 0, |s|);
    if r.Some? then
      assert LegacyMatcher(pat, s)(r.value.0) == Some(r.value.1);
      Some(r.value.1)
    else None
  }
}
