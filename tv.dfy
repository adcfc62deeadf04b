/**
 * The TV episode parser: from a file name to a season, an episode, a series name and the
 * custom name "Series - SxxEyy". Each stage is a specification function over the working name
 * (`fn`) and a method that updates the media object's fields step by step, proved to agree
 * with it.
 */
module TV {
  import opened Wrappers
  import opened Text
  import opened Paths
  import opened MetadataOps
  import opened TVPatterns
  import opened Media

  /** The suffix of an episode whose number could not be found. */
  const Special: string := "Special"

  /** Group 0 of a match removed from the working name, which then loses at least one character. */
  lemma RemoveMatchShortens(fn: string, g: string, p: nat)
    requires OccursAt(fn, g, p) && |g| > 0
    ensures |Trim(Remove(fn, g))| < |fn|
  {
    OccursImpliesContains(fn, g, p);
    RemoveShortens(fn, g);
  }

  // ---------------------------------------------------------------- solo patterns

  /** matchEpisodeOnly from pattern i on: the episode number and the name without the match, trimmed. */
  function SoloEpisodeFrom(fn: string, i: nat): (r: Option<(nat, string)>)
    requires i <= |RegexSoloEp|
    ensures r.Some? ==> |r.value.1| < |fn|
    decreases |RegexSoloEp| - i
  {
    if i == |RegexSoloEp| then None
    else match Find(RegexSoloEp[i], fn)
      case Some((p, h)) =>
        var g := Group0(fn, p, h);
        RemoveMatchShortens(fn, g, p);
        Some((h.episode.value, Trim(Remove(fn, g))))
      case None => SoloEpisodeFrom(fn, i + 1)
  }

  function SoloEpisode(fn: string): Option<(nat, string)> {
    SoloEpisodeFrom(fn, 0)
  }

  /** matchSeasonOnly from pattern i on: the season number and the name without the match, trimmed. */
  function SoloSeasonFrom(fn: string, i: nat): (r: Option<(nat, string)>)
    requires i <= |RegexSoloSeason|
    ensures r.Some? ==> |r.value.1| < |fn|
    decreases |RegexSoloSeason| - i
  {
    if i == |RegexSoloSeason| then None
    else match Find(RegexSoloSeason[i], fn)
      case Some((p, h)) =>
        var g := Group0(fn, p, h);
        RemoveMatchShortens(fn, g, p);
        Some((h.season.value, Trim(Remove(fn, g))))
      case None => SoloSeasonFrom(fn, i + 1)
  }

  function SoloSeason(fn: string): Option<(nat, string)> {
    SoloSeasonFrom(fn, 0)
  }

  /** Sets the episode number from the first solo episode pattern that matches, and drops the match. */
  method MatchEpisodeOnly(m: Media, fn: string) returns (r: string)
    modifies m`episodeNumber
    ensures SoloEpisode(fn).None? ==> r == fn && m.episodeNumber == old(m.episodeNumber)
    ensures SoloEpisode(fn).Some? ==> r == SoloEpisode(fn).value.1 && m.episodeNumber == SoloEpisode(fn).value.0
  {
    var i := 0;
    while i < |RegexSoloEp|
      invariant i <= |RegexSoloEp|
      invariant SoloEpisodeFrom(fn, i) == SoloEpisode(fn)
      invariant m.episodeNumber == old(m.episodeNumber)
    {
      var found := Find(RegexSoloEp[i], fn);
      if found.Some? {
        var p, h := found.value.0, found.value.1;
        m.episodeNumber := h.episode.value;
        r := Trim(Remove(fn, Group0(fn, p, h)));
        return;
      }
      i := i + 1;
    }
    r := fn;
  }

  /** Sets the season number from the first solo season pattern that matches, and drops the match. */
  method MatchSeasonOnly(m: Media, fn: string) returns (r: string)
    modifies m`seasonNumber
    ensures SoloSeason(fn).None? ==> r == fn && m.seasonNumber == old(m.seasonNumber)
    ensures SoloSeason(fn).Some? ==> r == SoloSeason(fn).value.1 && m.seasonNumber == SoloSeason(fn).value.0
  {
    var i := 0;
    while i < |RegexSoloSeason|
      invariant i <= |RegexSoloSeason|
      invariant SoloSeasonFrom(fn, i) == SoloSeason(fn)
      invariant m.seasonNumber == old(m.seasonNumber)
    {
      var found := Find(RegexSoloSeason[i], fn);
      if found.Some? {
        var p, h := found.value.0, found.value.1;
        m.seasonNumber := h.season.value;
        r := Trim(Remove(fn, Group0(fn, p, h)));
        return;
      }
      i := i + 1;
    }
    r := fn;
  }

  // ---------------------------------------------------------------- legacy season search

  /** The season templates tried for number i, in the order the search tries them. */
  function SeasonTemplates(i: nat): seq<string> {
    var n := Decimal(i);
    ["SEASON " + n, "Season " + n, "season " + n, "s" + n, "s0" + n, "S" + n, "S0" + n]
  }

  /** seasons() from number i and template j on: the season found and the name without the template. */
  function SeasonsFrom(fn: string, i: nat, j: nat): (r: (Option<nat>, string))
    decreases MaxNumberOfSeasons - i, 7 - j
  {
    if i >= MaxNumberOfSeasons then (None, fn)
    else if j >= 7 then SeasonsFrom(fn, i + 1, 0)
    else
      var t := SeasonTemplates(i)[j];
      if Contains(fn, t) then (Some(i), Remove(fn, t)) else SeasonsFrom(fn, i, j + 1)
  }

  function SeasonsOf(fn: string): (Option<nat>, string) {
    SeasonsFrom(fn, 1, 0)
  }

  /** Template j of number i comes before template j2 of number i2 in the search. */
  predicate Earlier(i: nat, j: nat, i2: nat, j2: nat) {
    i < i2 || (i == i2 && j < j2)
  }

  /** The first template (in search order) contained in the name decides the season. */
  lemma {:induction false} SeasonsFirstMatch(fn: string, i: nat, j: nat, a: nat, b: nat)
    requires 1 <= i < MaxNumberOfSeasons && j < 7 && Contains(fn, SeasonTemplates(i)[j])
    requires forall i2: nat, j2: nat :: 1 <= i2 && j2 < 7 && Earlier(i2, j2, i, j) ==> !Contains(fn, SeasonTemplates(i2)[j2])
    requires Earlier(a, b, i, j) || (a == i && b == j)
    requires 1 <= a && b <= 7
    ensures SeasonsFrom(fn, a, b) == (Some(i), Remove(fn, SeasonTemplates(i)[j]))
    decreases MaxNumberOfSeasons - a, 7 - b
  {
    if a == i && b == j {
      assert a < MaxNumberOfSeasons && b < 7;
    } else if b >= 7 {
      assert a < MaxNumberOfSeasons;
      assert SeasonsFrom(fn, a, b) == SeasonsFrom(fn, a + 1, 0);
      SeasonsFirstMatch(fn, i, j, a + 1, 0);
    } else {
      assert !Contains(fn, SeasonTemplates(a)[b]);
      assert SeasonsFrom(fn, a, b) == SeasonsFrom(fn, a, b + 1);
      SeasonsFirstMatch(fn, i, j, a, b + 1);
    }
  }

  /** No template of any number in [1, 15) occurs: the season is left alone and the name kept. */
  lemma {:induction false} SeasonsNoMatch(fn: string, a: nat, b: nat)
    requires forall i2: nat, j2: nat :: 1 <= i2 < MaxNumberOfSeasons && j2 < 7 ==> !Contains(fn, SeasonTemplates(i2)[j2])
    requires 1 <= a && b <= 7
    ensures SeasonsFrom(fn, a, b) == (None, fn)
    decreases MaxNumberOfSeasons - a, 7 - b
  {
    if a >= MaxNumberOfSeasons {
    } else if b >= 7 {
      SeasonsNoMatch(fn, a + 1, 0);
    } else {
      SeasonsNoMatch(fn, a, b + 1);
    }
  }

  /** What the search can return: a number in [1, 15) with one of its templates removed, or nothing. */
  lemma {:induction false} SeasonsResult(fn: string, a: nat, b: nat)
    requires 1 <= a && b <= 7
    ensures var r := SeasonsFrom(fn, a, b);
      r.0.None? ==> r.1 == fn
    ensures var r := SeasonsFrom(fn, a, b);
      r.0.Some? ==> (1 <= r.0.value < MaxNumberOfSeasons &&
        exists j :: 0 <= j < 7 && Contains(fn, SeasonTemplates(r.0.value)[j]) && r.1 == Remove(fn, SeasonTemplates(r.0.value)[j]))
    decreases MaxNumberOfSeasons - a, 7 - b
  {
    if a >= MaxNumberOfSeasons {
    } else if b >= 7 {
      SeasonsResult(fn, a + 1, 0);
    } else if !Contains(fn, SeasonTemplates(a)[b]) {
      SeasonsResult(fn, a, b + 1);
    }
  }

  /** The legacy season search: the first number and template that occur in the name win. */
  method Seasons(m: Media, fn: string) returns (r: string)
    modifies m`seasonNumber
    ensures SeasonsOf(fn).0.None? ==> m.seasonNumber == old(m.seasonNumber)
    ensures SeasonsOf(fn).0.Some? ==> m.seasonNumber == SeasonsOf(fn).0.value
    ensures r == SeasonsOf(fn).1
  {
    var i := 1;
    while i < MaxNumberOfSeasons
      invariant 1 <= i <= MaxNumberOfSeasons
      invariant SeasonsFrom(fn, i, 0) == SeasonsOf(fn)
      invariant m.seasonNumber == old(m.seasonNumber)
    {
      var templates := SeasonTemplates(i);
      var j := 0;
      while j < |templates|
        invariant j <= |templates|
        invariant SeasonsFrom(fn, i, j) == SeasonsOf(fn)
        invariant m.seasonNumber == old(m.seasonNumber)
      {
        if Contains(fn, templates[j]) {
          m.seasonNumber := i;
          return Remove(fn, templates[j]);
        }
        j := j + 1;
      }
      i := i + 1;
    }
    r := fn;
  }

  // ---------------------------------------------------------------- legacy episode search

  /** The characters `.` does not match: Java's line terminators. */
  predicate IsLineTerminator(c: char) {
    c == '\n' || c == '\r' || c == '\U{85}' || c == '\U{2028}' || c == '\U{2029}'
  }

  /** fn.matches(".*\\d{1,3}.*"): a digit somewhere, and no line terminator anywhere. */
  predicate HasNumber(fn: string) {
    (exists i :: 0 <= i < |fn| && IsDigit(fn[i])) && forall i :: 0 <= i < |fn| ==> !IsLineTerminator(fn[i])
  }

  /** The first legacy pattern from k on that matches the name, in declared order. */
  function FirstLegacy(fn: string, k: nat): (r: Option<nat>)
    requires k <= |LegacyRegex|
    ensures r.Some? ==> k <= r.value < |LegacyRegex| && LegacyFind(LegacyRegex[r.value], fn).Some?
    ensures r.Some? ==> forall j :: k <= j < r.value ==> LegacyFind(LegacyRegex[j], fn).None?
    ensures r.None? ==> forall j :: k <= j < |LegacyRegex| ==> LegacyFind(LegacyRegex[j], fn).None?
    decreases |LegacyRegex| - k
  {
    if k == |LegacyRegex| then None
    else if LegacyFind(LegacyRegex[k], fn).Some? then Some(k)
    else FirstLegacy(fn, k + 1)
  }

  /**
   * What a legacy match h gives: the value of its `num` group, and the name up to the first
   * occurrence of the text of its `seq` group (which may lie before the match itself).
   */
  predicate LegacyAnswer(fn: string, h: LegacyHit, r: (int, string)) {
    WellFormedLegacyHit(fn, h) &&
    r.0 == DecimalValue(fn[h.numStart..h.numEnd]) && PrefixBeforeFirst(fn, fn[h.seqStart..h.seqEnd], r.1)
  }

  /** The legacy patterns from k on: the `num` value and name prefix of the first that matches. */
  function LegacyRegexFrom(fn: string, k: nat): Option<(nat, string)>
    requires k <= |LegacyRegex|
    decreases |LegacyRegex| - k
  {
    if k == |LegacyRegex| then None
    else match LegacyFind(LegacyRegex[k], fn)
      case Some(h) =>
        var span := fn[h.seqStart..h.seqEnd];
        OccursImpliesContains(fn, span, h.seqStart);
        Some((DecimalValue(fn[h.numStart..h.numEnd]), fn[..IndexOf(fn, span).value]))
      case None => LegacyRegexFrom(fn, k + 1)
  }

  /**
   * The legacy search from k on finds something exactly when one of its patterns matches, and
   * then the first that matches gives the `num` group's value and the name before the first
   * occurrence of its `seq` group.
   */
  lemma {:induction false} LegacyRegexFirst(fn: string, k: nat)
    requires k <= |LegacyRegex|
    ensures LegacyRegexFrom(fn, k).None? <==> FirstLegacy(fn, k).None?
    ensures LegacyRegexFrom(fn, k).Some? ==>
      LegacyAnswer(fn, LegacyFind(LegacyRegex[FirstLegacy(fn, k).value], fn).value,
        (LegacyRegexFrom(fn, k).value.0 as int, LegacyRegexFrom(fn, k).value.1))
    decreases |LegacyRegex| - k
  {
    if k < |LegacyRegex| {
      match LegacyFind(LegacyRegex[k], fn)
      case Some(h) =>
        var span := fn[h.seqStart..h.seqEnd];
        OccursImpliesContains(fn, span, h.seqStart);
        var i := IndexOf(fn, span).value;
        assert fn[..i][..i] == fn[..i];
      case None =>
        LegacyRegexFirst(fn, k + 1);
    }
  }

  /** The episode templates tried for number i, in the order the search tries them. */
  function EpisodeTemplates(i: nat): seq<string> {
    ["Episode " + SpacePadded(i, 2), "Episode " + Decimal(i), "- " + ZeroPadded(i, 3),
     "- " + ZeroPadded(i, 2), "E" + ZeroPadded(i, 2) + " ", "E" + Decimal(i) + " "]
  }

  /**
   * The template search from number i and template j on, ignoring case: the number and the
   * name before the template's first occurrence.
   */
  function TemplatesFrom(fn: string, i: nat, j: nat): (r: Option<(nat, string)>)
    ensures r.Some? ==> i <= r.value.0 < MaxNumberOfEpisodes && StartsWith(fn, r.value.1)
    decreases MaxNumberOfEpisodes - i, 6 - j
  {
    if i >= MaxNumberOfEpisodes then None
    else if j >= 6 then TemplatesFrom(fn, i + 1, 0)
    else
      var t := Lower(EpisodeTemplates(i)[j]);
      if Contains(Lower(fn), t) then Some((i, fn[..IndexOf(Lower(fn), t).value]))
      else TemplatesFrom(fn, i, j + 1)
  }

  /** Template j of number i occurs in the name, ignoring case. */
  predicate TemplateIn(fn: string, i: nat, j: nat)
    requires j < 6
  {
    Contains(Lower(fn), Lower(EpisodeTemplates(i)[j]))
  }

  /** Template j of number i is the first one (in search order, from number 1) that occurs in the name. */
  ghost predicate FirstTemplate(fn: string, i: nat, j: nat) {
    1 <= i < MaxNumberOfEpisodes && j < 6 && TemplateIn(fn, i, j) &&
    forall i2: nat, j2: nat {:trigger Earlier(i2, j2, i, j)} ::
      1 <= i2 && j2 < 6 && Earlier(i2, j2, i, j) ==> !TemplateIn(fn, i2, j2)
  }

  /** pre is the name up to the first occurrence of t, ignoring case. */
  predicate PrefixBeforeFirstIgnoringCase(fn: string, t: string, pre: string) {
    |pre| <= |fn| && pre == fn[..|pre|] && OccursAt(Lower(fn), Lower(t), |pre|) &&
    forall q :: 0 <= q < |pre| ==> !OccursAt(Lower(fn), Lower(t), q)
  }

  /** Searching from any earlier template reaches the first one that occurs. */
  lemma {:induction false} TemplatesReach(fn: string, i: nat, j: nat, a: nat, b: nat)
    requires FirstTemplate(fn, i, j)
    requires Earlier(a, b, i, j) || (a == i && b == j)
    requires 1 <= a && b <= 6
    ensures TemplatesFrom(fn, a, b) == TemplatesFrom(fn, i, j)
    decreases MaxNumberOfEpisodes - a, 6 - b, 1
  {
    if b >= 6 {
      TemplatesWrap(fn, i, j, a, b);
    } else if !(a == i && b == j) {
      TemplatesSkip(fn, i, j, a, b);
    }
  }

  /** Past the last template of a number earlier than the first hit, the search goes on with the next number. */
  lemma {:induction false} TemplatesWrap(fn: string, i: nat, j: nat, a: nat, b: nat)
    requires FirstTemplate(fn, i, j) && Earlier(a, b, i, j) && 1 <= a && b == 6
    ensures TemplatesFrom(fn, a, b) == TemplatesFrom(fn, i, j)
    decreases MaxNumberOfEpisodes - a, 6 - b, 0
  {
    assert a < i < MaxNumberOfEpisodes;
    assert Earlier(a + 1, 0, i, j) || (a + 1 == i && j == 0);
    TemplatesNext(fn, a, b);
    TemplatesReach(fn, i, j, a + 1, 0);
  }

  /** A template earlier than the first hit does not occur, so the search skips it. */
  lemma {:induction false} TemplatesSkip(fn: string, i: nat, j: nat, a: nat, b: nat)
    requires FirstTemplate(fn, i, j) && Earlier(a, b, i, j) && 1 <= a && b < 6
    ensures TemplatesFrom(fn, a, b) == TemplatesFrom(fn, i, j)
    decreases MaxNumberOfEpisodes - a, 6 - b, 0
  {
    assert !TemplateIn(fn, a, b);
    TemplatesNext(fn, a, b);
    TemplatesReach(fn, i, j, a, b + 1);
  }

  /** The first template that occurs decides: its number, and the name before its first occurrence. */
  lemma TemplatesFirstMatch(fn: string, i: nat, j: nat)
    requires FirstTemplate(fn, i, j)
    ensures var r := TemplatesFrom(fn, 1, 0);
      r.Some? && r.value.0 == i && PrefixBeforeFirstIgnoringCase(fn, EpisodeTemplates(i)[j], r.value.1)
  {
    TemplatesReach(fn, i, j, 1, 0);
    TemplateHit(fn, i, j);
  }

  /** Past the last template the search goes on with the next number; a template absent from the name is skipped. */
  lemma TemplatesNext(fn: string, a: nat, b: nat)
    requires b < 6 ==> !TemplateIn(fn, a, b)
    ensures b >= 6 ==> TemplatesFrom(fn, a, b) == TemplatesFrom(fn, a + 1, 0)
    ensures b < 6 ==> TemplatesFrom(fn, a, b) == TemplatesFrom(fn, a, b + 1)
  {
  }

  /** Where template j of number i occurs, the search from it stops there. */
  lemma TemplateHit(fn: string, i: nat, j: nat)
    requires 1 <= i < MaxNumberOfEpisodes && j < 6 && TemplateIn(fn, i, j)
    ensures var r := TemplatesFrom(fn, i, j);
      r.Some? && r.value.0 == i && PrefixBeforeFirstIgnoringCase(fn, EpisodeTemplates(i)[j], r.value.1)
  {
    var t := Lower(EpisodeTemplates(i)[j]);
    var q := IndexOf(Lower(fn), t).value;
    assert TemplatesFrom(fn, i, j) == Some((i, fn[..q]));
    assert fn[..q][..q] == fn[..q];
  }

  /** No template of any number in [1, 300) occurs: the search finds nothing. */
  lemma {:induction false} TemplatesNoMatch(fn: string, a: nat, b: nat)
    requires forall i2: nat, j2: nat :: 1 <= i2 < MaxNumberOfEpisodes && j2 < 6 ==> !TemplateIn(fn, i2, j2)
    requires 1 <= a && b <= 6
    ensures TemplatesFrom(fn, a, b).None?
    decreases MaxNumberOfEpisodes - a, 6 - b
  {
    if a >= MaxNumberOfEpisodes {
    } else if b >= 6 {
      TemplatesNoMatch(fn, a + 1, 0);
    } else {
      assert !TemplateIn(fn, a, b);
      assert TemplatesFrom(fn, a, b) == TemplatesFrom(fn, a, b + 1);
      TemplatesNoMatch(fn, a, b + 1);
    }
  }

  /** episodes(fn): the episode number (-1 when none) and the name before the episode marker. */
  function EpisodesOf(fn: string): (int, string) {
    if !HasNumber(fn) then (-1, fn)
    else
      var legacy := LegacyRegexFrom(fn, 0);
      if legacy.Some? then (legacy.value.0 as int, legacy.value.1)
      else
        var templated := TemplatesFrom(fn, 1, 0);
        if templated.Some? then (templated.value.0 as int, templated.value.1) else (-1, fn)
  }

  /** No episode template occurs in `fn`, ignoring case. */
  predicate NoTemplateIn(fn: string)
  {
    forall i: nat, j: nat :: 1 <= i < MaxNumberOfEpisodes && j < 6 ==> !TemplateIn(fn, i, j)
  }

  /**
   * What episodes() returns. Without a digit: -1 and the name. Otherwise the first legacy pattern
   * that matches wins, with its `num` value and the name before the first occurrence of its `seq`
   * text; with none, and no template occurring either, -1 and the name. The result's name is
   * always a prefix of the input, kept whole exactly when no episode was found.
   */
  lemma EpisodesLemma(fn: string)
    ensures StartsWith(fn, EpisodesOf(fn).1) && EpisodesOf(fn).0 >= -1
    ensures EpisodesOf(fn).0 == -1 ==> EpisodesOf(fn).1 == fn
    ensures !HasNumber(fn) ==> EpisodesOf(fn) == (-1, fn)
    ensures HasNumber(fn) && FirstLegacy(fn, 0).Some? ==>
      LegacyAnswer(fn, LegacyFind(LegacyRegex[FirstLegacy(fn, 0).value], fn).value, EpisodesOf(fn))
    ensures HasNumber(fn) && FirstLegacy(fn, 0).None? && NoTemplateIn(fn) ==> EpisodesOf(fn) == (-1, fn)
  {
    LegacyRegexFirst(fn, 0);
    if HasNumber(fn) && LegacyRegexFrom(fn, 0).None? {
      if NoTemplateIn(fn) {
        TemplatesNoMatch(fn, 1, 0);
      }
    }
  }

  /**
   * With a digit and no legacy match, the first template that occurs (ignoring case) wins: its
   * number, and the name before its first occurrence.
   */
  lemma EpisodesByTemplate(fn: string, i: nat, j: nat)
    requires HasNumber(fn) && FirstLegacy(fn, 0).None? && FirstTemplate(fn, i, j)
    ensures EpisodesOf(fn).0 == i && PrefixBeforeFirstIgnoringCase(fn, EpisodeTemplates(i)[j], EpisodesOf(fn).1)
  {
    TemplatesFirstMatch(fn, i, j);
  }

  /** The legacy episode search: three patterns, then the templates for 1 to 299, else -1. */
  method Episodes(m: Media, fn: string) returns (r: string)
    modifies m`episodeNumber
    ensures (m.episodeNumber, r) == EpisodesOf(fn)
  {
    if HasNumber(fn) {
      var legacy := LegacySearch(m, fn);
      if legacy.Some? {
        return legacy.value;
      }
      var templated := TemplateSearch(m, fn);
      if templated.Some? {
        return templated.value;
      }
    }
    m.episodeNumber := -1;
    r := fn;
  }

  /** The three legacy patterns in order: the first that matches sets the episode number. */
  method LegacySearch(m: Media, fn: string) returns (r: Option<string>)
    modifies m`episodeNumber
    ensures var legacy := LegacyRegexFrom(fn, 0);
      (legacy.None? ==> r.None? && m.episodeNumber == old(m.episodeNumber)) &&
      (legacy.Some? ==> r == Some(legacy.value.1) && m.episodeNumber == legacy.value.0)
  {
    var k := 0;
    while k < |LegacyRegex|
      invariant k <= |LegacyRegex|
      invariant LegacyRegexFrom(fn, k) == LegacyRegexFrom(fn, 0)
      invariant m.episodeNumber == old(m.episodeNumber)
    {
      var found := LegacyFind(LegacyRegex[k], fn);
      if found.Some? {
        var h := found.value;
        m.episodeNumber := DecimalValue(fn[h.numStart..h.numEnd]);
        var span := fn[h.seqStart..h.seqEnd];
        OccursImpliesContains(fn, span, h.seqStart);
        assert LegacyRegexFrom(fn, k) == Some((m.episodeNumber as nat, fn[..IndexOf(fn, span).value]));
        return Some(fn[..IndexOf(fn, span).value]);
      }
      assert LegacyRegexFrom(fn, k) == LegacyRegexFrom(fn, k + 1);
      k := k + 1;
    }
    r := None;
  }

  /** The templates for 1 to 299, ignoring case: the first contained one sets the episode number. */
  method TemplateSearch(m: Media, fn: string) returns (r: Option<string>)
    modifies m`episodeNumber
    ensures var templated := TemplatesFrom(fn, 1, 0);
      (templated.None? ==> r.None? && m.episodeNumber == old(m.episodeNumber)) &&
      (templated.Some? ==> r == Some(templated.value.1) && m.episodeNumber == templated.value.0)
  {
    var i := 1;
    while i < MaxNumberOfEpisodes
      invariant 1 <= i <= MaxNumberOfEpisodes
      invariant TemplatesFrom(fn, i, 0) == TemplatesFrom(fn, 1, 0)
      invariant m.episodeNumber == old(m.episodeNumber)
    {
      var templates := EpisodeTemplates(i);
      var j := 0;
      while j < |templates|
        invariant j <= |templates|
        invariant TemplatesFrom(fn, i, j) == TemplatesFrom(fn, 1, 0)
        invariant m.episodeNumber == old(m.episodeNumber)
      {
        if Contains(Lower(fn), Lower(templates[j])) {
          m.episodeNumber := i;
          return Some(fn[..IndexOf(Lower(fn), Lower(templates[j])).value]);
        }
        j := j + 1;
      }
      i := i + 1;
    }
    r := None;
  }

  // ---------------------------------------------------------------- parseTVInfo

  /** What parseTVInfo knows while it runs: the working name, what was found, and the fields. */
  datatype ParseState = ParseState(fn: string, foundSeas: bool, foundEp: bool, season: nat, episode: int, seriesName: string)

  /** The season, episode and series name fields of a TV object. */
  datatype TVInfo = TVInfo(season: nat, episode: int, seriesName: string)

  /** The solo episode patterns on the working name: a match sets the episode and leaves the name without it. */
  function WithSoloEpisode(st: ParseState): ParseState {
    var solo := SoloEpisode(st.fn);
    if solo.Some? then st.(fn := solo.value.1, foundEp := true, episode := solo.value.0) else st
  }

  /** One combined pattern matched at p: take its season and episode, then drop the match from the name. */
  function ComboStep(st: ParseState, p: nat, h: Hit): ParseState
    requires p < h.end <= |st.fn|
  {
    var g := Group0(st.fn, p, h);
    var st1 := if h.season.Some? then st.(foundSeas := true, season := h.season.value) else st;
    var st2 :=
      if h.episode.Some? then st1.(foundEp := true, episode := h.episode.value)
      else WithSoloEpisode(st1);
    st2.(seriesName := if Contains(st2.fn, g) then Trim(Remove(st2.fn, g)) else st2.fn)
  }

  /** The combined patterns from k on, in order; true when one of them completed season and episode. */
  function ComboFrom(st: ParseState, k: nat): (ParseState, bool)
    requires k <= |RegexSeasonAndEp|
    decreases |RegexSeasonAndEp| - k
  {
    if k == |RegexSeasonAndEp| then (st, false)
    else
      var found := Find(RegexSeasonAndEp[k], st.fn);
      if found.None? then ComboFrom(st, k + 1)
      else
        var next := ComboStep(st, found.value.0, found.value.1);
        if next.foundSeas && next.foundEp then (next, true) else ComboFrom(next, k + 1)
  }

  /**
   * Pattern k decides the combined loop on this state: it matches the working name and brings
   * a season, or it matches once the season is already known.
   */
  predicate Decides(st: ParseState, k: nat)
    requires k < |RegexSeasonAndEp|
  {
    var found := Find(RegexSeasonAndEp[k], st.fn);
    found.Some? && (found.value.1.season.Some? || st.foundSeas)
  }

  /**
   * A round of the combined loop on a match keeps the working name (every combined pattern has an
   * episode group, so the solo episode fallback never runs), takes the match's episode, and its
   * season when it has one; the series name is the working name without group 0, trimmed, and
   * so strictly shorter than the working name.
   */
  lemma ComboStepLemma(st: ParseState, k: nat)
    requires k < |RegexSeasonAndEp| && Find(RegexSeasonAndEp[k], st.fn).Some?
    ensures var (p, h) := Find(RegexSeasonAndEp[k], st.fn).value;
      var r := ComboStep(st, p, h);
      r.fn == st.fn && r.foundEp && r.episode == h.episode.value &&
      (r.foundSeas <==> st.foundSeas || h.season.Some?) &&
      r.season == (if h.season.Some? then h.season.value else st.season) &&
      r.seriesName == Trim(Remove(st.fn, st.fn[p..h.end])) && |r.seriesName| < |st.fn|
  {
    var (p, h) := Find(RegexSeasonAndEp[k], st.fn).value;
    assert RegexSeasonAndEp[k] in RegexSeasonAndEp;
    var g := Group0(st.fn, p, h);
    assert OccursAt(st.fn, g, p);
    RemoveMatchShortens(st.fn, g, p);
    OccursImpliesContains(st.fn, g, p);
  }

  /** The first combined pattern from k0 on that decides, in declared order. */
  function FirstDecider(st: ParseState, k0: nat): (r: Option<nat>)
    requires k0 <= |RegexSeasonAndEp|
    ensures r.Some? ==> k0 <= r.value < |RegexSeasonAndEp| && Decides(st, r.value)
    ensures r.Some? ==> forall j :: k0 <= j < r.value ==> !Decides(st, j)
    ensures r.None? ==> forall j :: k0 <= j < |RegexSeasonAndEp| ==> !Decides(st, j)
    decreases |RegexSeasonAndEp| - k0
  {
    if k0 == |RegexSeasonAndEp| then None
    else if Decides(st, k0) then Some(k0)
    else FirstDecider(st, k0 + 1)
  }

  /** What the first deciding pattern, matching at p with hit h, leaves in the parse state r. */
  predicate DecidedBy(st: ParseState, p: nat, h: Hit, r: ParseState) {
    r.fn == st.fn && r.foundSeas && r.foundEp && h.episode.Some? && r.episode == h.episode.value &&
    r.season == (if h.season.Some? then h.season.value else st.season) &&
    p < h.end <= |st.fn| && r.seriesName == Trim(Remove(st.fn, st.fn[p..h.end]))
  }

  /**
   * What the combined loop from round k0 gives on a state `s` that earlier rounds left with st's
   * working name and season, when none of those rounds decided: it completes exactly when a
   * pattern from k0 on decides, and then as the first of them says; otherwise the name and the
   * season stay, and an episode is known exactly when one was or some pattern from k0 on matched.
   */
  ghost predicate ComboOutcome(st: ParseState, s: ParseState, k0: nat)
    requires k0 <= |RegexSeasonAndEp|
  {
    var c := ComboFrom(s, k0); var first := FirstDecider(st, k0);
    (c.1 <==> first.Some?) &&
    (first.Some? ==> var (p, h) := Find(RegexSeasonAndEp[first.value], st.fn).value; DecidedBy(st, p, h, c.0)) &&
    (first.None? ==>
      c.0.fn == st.fn && c.0.foundSeas == st.foundSeas && c.0.season == st.season &&
      (c.0.foundEp <==> s.foundEp || AnyComboMatch(st.fn, k0)))
  }

  /** The state the combined loop carries into round k0 + 1. */
  function NextRound(s: ParseState, k0: nat): ParseState
    requires k0 < |RegexSeasonAndEp|
  {
    var found := Find(RegexSeasonAndEp[k0], s.fn);
    if found.Some? then ComboStep(s, found.value.0, found.value.1) else s
  }

  /** Round k0 completes season and episode. */
  predicate StopsAt(s: ParseState, k0: nat)
    requires k0 < |RegexSeasonAndEp|
  {
    Find(RegexSeasonAndEp[k0], s.fn).Some? && NextRound(s, k0).foundSeas && NextRound(s, k0).foundEp
  }

  /** A round whose match completes season and episode decides the loop. */
  lemma ComboDecidesHere(st: ParseState, s: ParseState, k0: nat)
    requires k0 < |RegexSeasonAndEp| && StopsAt(s, k0)
    requires s.fn == st.fn && s.foundSeas == st.foundSeas && s.season == st.season
    ensures ComboOutcome(st, s, k0)
  {
    ComboStepLemma(s, k0);
    assert Decides(st, k0) && FirstDecider(st, k0) == Some(k0);
  }

  /** A round that does not decide keeps the working name and the season for the next one. */
  lemma NextRoundKeeps(s: ParseState, k0: nat)
    requires k0 < |RegexSeasonAndEp| && !StopsAt(s, k0)
    ensures NextRound(s, k0).fn == s.fn && NextRound(s, k0).foundSeas == s.foundSeas
    ensures NextRound(s, k0).season == s.season
  {
    if Find(RegexSeasonAndEp[k0], s.fn).Some? {
      ComboStepLemma(s, k0);
    }
  }

  /** A round whose match leaves the season missing passes the loop on, with the episode found. */
  lemma ComboPassesOn(st: ParseState, s: ParseState, k0: nat)
    requires k0 < |RegexSeasonAndEp| && Find(RegexSeasonAndEp[k0], s.fn).Some? && !StopsAt(s, k0)
    requires s.fn == st.fn && s.foundSeas == st.foundSeas && s.season == st.season
    requires ComboOutcome(st, NextRound(s, k0), k0 + 1)
    ensures ComboOutcome(st, s, k0)
  {
    ComboStepLemma(s, k0);
    var next := NextRound(s, k0);
    assert !Decides(st, k0) && FirstDecider(st, k0) == FirstDecider(st, k0 + 1);
    assert ComboFrom(s, k0) == ComboFrom(next, k0 + 1);
    assert next.foundEp && AnyComboMatch(st.fn, k0);
  }

  /** A round without a match passes the loop on unchanged. */
  lemma ComboSkips(st: ParseState, s: ParseState, k0: nat)
    requires k0 < |RegexSeasonAndEp| && Find(RegexSeasonAndEp[k0], s.fn).None?
    requires s.fn == st.fn && ComboOutcome(st, s, k0 + 1)
    ensures ComboOutcome(st, s, k0)
  {
    assert !Decides(st, k0) && FirstDecider(st, k0) == FirstDecider(st, k0 + 1);
    assert ComboFrom(s, k0) == ComboFrom(s, k0 + 1);
    assert AnyComboMatch(st.fn, k0) == AnyComboMatch(st.fn, k0 + 1);
  }

  /** The combined loop from round k0, by induction over the rounds left. */
  lemma {:induction false} ComboFromDecides(st: ParseState, s: ParseState, k0: nat)
    requires k0 <= |RegexSeasonAndEp|
    requires s.fn == st.fn && s.foundSeas == st.foundSeas && s.season == st.season
    ensures ComboOutcome(st, s, k0)
    decreases |RegexSeasonAndEp| - k0
  {
    if k0 < |RegexSeasonAndEp| {
      if StopsAt(s, k0) {
        ComboDecidesHere(st, s, k0);
      } else {
        NextRoundKeeps(s, k0);
        ComboFromDecides(st, NextRound(s, k0), k0 + 1);
        if Find(RegexSeasonAndEp[k0], s.fn).Some? {
          ComboPassesOn(st, s, k0);
        } else {
          ComboSkips(st, s, k0);
        }
      }
    }
  }

  /** Some combined pattern from k0 on matches the working name. */
  predicate AnyComboMatch(fn: string, k0: nat)
    requires k0 <= |RegexSeasonAndEp|
    decreases |RegexSeasonAndEp| - k0
  {
    k0 < |RegexSeasonAndEp| && (Find(RegexSeasonAndEp[k0], fn).Some? || AnyComboMatch(fn, k0 + 1))
  }

  /**
   * The combined patterns in declared order: the loop completes exactly when one of them decides,
   * and then the first deciding pattern's match gives the season, the episode and the series
   * name (the working name without the match, trimmed). The working name is never changed; when
   * no pattern decides, the season is left as it was and the episode is found exactly when some
   * combined pattern matched.
   */
  lemma ComboFirstDecides(st: ParseState)
    ensures var c := ComboFrom(st, 0); var first := FirstDecider(st, 0);
      (c.1 <==> first.Some?) &&
      (first.Some? ==> var (p, h) := Find(RegexSeasonAndEp[first.value], st.fn).value; DecidedBy(st, p, h, c.0)) &&
      (first.None? ==>
        c.0.fn == st.fn && c.0.foundSeas == st.foundSeas && c.0.season == st.season &&
        (c.0.foundEp <==> st.foundEp || AnyComboMatch(st.fn, 0)))
  {
    ComboFromDecides(st, st, 0);
  }

  /** After the combined patterns, an episode still missing is looked for with the solo patterns. */
  function SoloEpisodeStep(st: ParseState): ParseState {
    if st.foundEp then st else WithSoloEpisode(st)
  }

  /**
   * A season still missing is looked for with the solo patterns on the name and then on the
   * parent directory's name. None when the parent is needed and absent.
   */
  function SoloSeasonStep(st: ParseState, parentDir: Option<string>): Option<ParseState> {
    if st.foundSeas then Some(st)
    else
      var solo := SoloSeason(st.fn);
      if solo.Some? then Some(st.(fn := solo.value.1, foundSeas := true, season := solo.value.0))
      else if parentDir.None? then None
      else
        var fromParent := SoloSeason(UnwantedSpacesRemoved(parentDir.value));
        if fromParent.Some? then Some(st.(foundSeas := true, season := fromParent.value.0)) else Some(st)
  }

  /** After the combined patterns: the solo episode patterns, then the solo season patterns. */
  function AfterCombo(st: ParseState, parentDir: Option<string>): Option<ParseState> {
    SoloSeasonStep(SoloEpisodeStep(st), parentDir)
  }

  /**
   * The legacy fallback of parseTVInfo on the cleaned name: the season search (keeping the
   * season when it finds none), the episode search on what it leaves, and the trimmed rest as
   * series name.
   */
  function LegacyInfo(fn: string, season: nat): TVInfo {
    var seasons := SeasonsOf(fn);
    var episodes := EpisodesOf(seasons.1);
    TVInfo(if seasons.0.Some? then seasons.0.value else season, episodes.0, Trim(episodes.1))
  }

  /**
   * parseTVInfo on a file, from the fields it starts with. None when it throws: the file name
   * has no '.', or the parent directory is consulted and the file has none.
   */
  function ParseTVInfoOf(file: Path, before: TVInfo): Option<TVInfo> {
    var stem := Stem(FileName(file));
    if stem.None? then None
    else ParseName(UnwantedSpacesRemoved(stem.value), before, ParentDirName(file))
  }

  /** parseTVInfo once the working name `fn` is known; `parentDir` is the parent directory's name. */
  function ParseName(fn: string, before: TVInfo, parentDir: Option<string>): Option<TVInfo> {
    var combo := ComboFrom(StartState(fn, before), 0);
    var st := combo.0;
    if combo.1 then Some(TVInfo(st.season, st.episode, st.seriesName))
    else
      var after := AfterCombo(st, parentDir);
      if after.None? then None
      else
        var st2 := after.value;
        if !st2.foundEp || !st2.foundSeas then Some(LegacyInfo(fn, st2.season))
        else Some(TVInfo(st2.season, st2.episode, st2.fn))
  }

  /** The parse state parseTVInfo starts from: nothing found yet, the fields as they were. */
  function StartState(fn: string, before: TVInfo): ParseState {
    ParseState(fn, false, false, before.season, before.episode, before.seriesName)
  }

  /**
   * The name the solo season patterns search when no combined pattern decided: the working name,
   * less a solo episode match when no combined pattern had already supplied the episode.
   */
  function SeasonSearchName(fn: string): string {
    if AnyComboMatch(fn, 0) || SoloEpisode(fn).None? then fn else SoloEpisode(fn).value.1
  }

  /**
   * What the first deciding combined pattern gives: its season, its episode, and the working name
   * without its group 0, trimmed, as series name. None when no combined pattern decides.
   */
  function DecidedInfo(fn: string, before: TVInfo): Option<TVInfo> {
    var first := FirstDecider(StartState(fn, before), 0);
    if first.None? then None
    else
      var (p, h) := Find(RegexSeasonAndEp[first.value], fn).value;
      Some(TVInfo(h.season.value, h.episode.value, Trim(Remove(fn, fn[p..h.end]))))
  }

  /** When a combined pattern decides, the first one in declared order gives the result. */
  lemma ParseNameDecided(fn: string, before: TVInfo, parentDir: Option<string>)
    requires FirstDecider(StartState(fn, before), 0).Some?
    ensures ParseName(fn, before, parentDir) == DecidedInfo(fn, before)
  {
    ComboFirstDecides(StartState(fn, before));
  }

  /**
   * Parsing a working name throws exactly when no combined pattern decides, no solo season
   * pattern matches, and there is no parent directory to look at.
   */
  lemma ParseNameThrows(fn: string, before: TVInfo, parentDir: Option<string>)
    ensures ParseName(fn, before, parentDir).None? <==>
      FirstDecider(StartState(fn, before), 0).None? && SoloSeason(SeasonSearchName(fn)).None? && parentDir.None?
  {
    var st := StartState(fn, before);
    ComboFirstDecides(st);
    var c := ComboFrom(st, 0);
    if !c.1 {
      assert SoloEpisodeStep(c.0).fn == SeasonSearchName(fn);
      AfterComboThrows(c.0, parentDir);
    }
  }

  /** The steps after the combined patterns fail exactly when the season is still missing everywhere. */
  lemma AfterComboThrows(st: ParseState, parentDir: Option<string>)
    ensures AfterCombo(st, parentDir).None? <==>
      !st.foundSeas && SoloSeason(SoloEpisodeStep(st).fn).None? && parentDir.None?
  {
  }

  /**
   * What parseTVInfo promises. A file name without a '.' throws. Otherwise, when a combined
   * pattern decides, the first one in declared order gives the season, the episode and the series
   * name; and parsing throws exactly when no combined pattern decides, no solo season pattern
   * matches, and the file has no parent directory, so a file in a directory never makes it throw.
   */
  lemma ParseTVInfoOutcome(file: Path, before: TVInfo)
    ensures Stem(FileName(file)).None? ==> ParseTVInfoOf(file, before).None?
    ensures Stem(FileName(file)).Some? ==>
      var fn := UnwantedSpacesRemoved(Stem(FileName(file)).value);
      var r := ParseTVInfoOf(file, before);
      var first := FirstDecider(StartState(fn, before), 0);
      (first.Some? ==> r == DecidedInfo(fn, before)) &&
      (r.None? <==> first.None? && SoloSeason(SeasonSearchName(fn)).None? && ParentDirName(file).None?) &&
      (ParentDirName(file).Some? ==> r.Some?)
  {
    var stem := Stem(FileName(file));
    if stem.Some? {
      var fn := UnwantedSpacesRemoved(stem.value);
      ParseNameThrows(fn, before, ParentDirName(file));
      if FirstDecider(StartState(fn, before), 0).Some? {
        ParseNameDecided(fn, before, ParentDirName(file));
      }
    }
  }

  function InfoOf(m: Media): TVInfo
    reads m`seasonNumber, m`episodeNumber, m`seriesName
  {
    TVInfo(m.seasonNumber, m.episodeNumber, m.seriesName)
  }

  function StateOf(m: Media, fn: string, foundSeas: bool, foundEp: bool): ParseState
    reads m
  {
    ParseState(fn, foundSeas, foundEp, m.seasonNumber, m.episodeNumber, m.seriesName)
  }

  /** The body of the combined-pattern loop for a match at p: ComboStep on the object's fields. */
  method ApplyCombined(m: Media, fn: string, foundSeas: bool, foundEp: bool, p: nat, h: Hit)
    returns (fn': string, foundSeas': bool, foundEp': bool)
    requires p < h.end <= |fn|
    modifies m`seasonNumber, m`episodeNumber, m`seriesName
    ensures StateOf(m, fn', foundSeas', foundEp') == ComboStep(old(StateOf(m, fn, foundSeas, foundEp)), p, h)
  {
    fn', foundSeas', foundEp' := fn, foundSeas, foundEp;
    var g := fn[p..h.end];
    if h.season.Some? {
      foundSeas' := true;
      m.seasonNumber := h.season.value;
    }
    if h.episode.Some? {
      foundEp' := true;
      m.episodeNumber := h.episode.value;
    } else {
      var newFn := MatchEpisodeOnly(m, fn);
      if fn != newFn {
        fn' := newFn;
        foundEp' := true;
      }
    }
    if Contains(fn', g) {
      m.seriesName := Trim(Remove(fn', g));
    } else {
      m.seriesName := fn';
    }
  }

  /**
   * One round of the combined-pattern loop, on the object whose parse state is `st`: pattern k,
   * and whether it completed season and episode. `st'` is the parse state afterwards.
   */
  method ComboRound(m: Media, fn: string, foundSeas: bool, foundEp: bool, k: nat, ghost st: ParseState)
    returns (fn': string, foundSeas': bool, foundEp': bool, done: bool, ghost st': ParseState)
    requires k < |RegexSeasonAndEp| && StateOf(m, fn, foundSeas, foundEp) == st
    modifies m`seasonNumber, m`episodeNumber, m`seriesName
    ensures st' == StateOf(m, fn', foundSeas', foundEp')
    ensures ComboFrom(st, k) == if done then (st', true) else ComboFrom(st', k + 1)
  {
    fn', foundSeas', foundEp', done := fn, foundSeas, foundEp, false;
    var found := Find(RegexSeasonAndEp[k], fn);
    if found.Some? {
      fn', foundSeas', foundEp' := ApplyCombined(m, fn, foundSeas, foundEp, found.value.0, found.value.1);
      done := foundSeas' && foundEp';
    }
    st' := StateOf(m, fn', foundSeas', foundEp');
  }

  /** The combined patterns in order, stopping once one completes both season and episode. */
  method MatchCombined(m: Media, fn: string, ghost start: ParseState) returns (fn': string, foundSeas: bool, foundEp: bool, done: bool)
    requires StateOf(m, fn, false, false) == start
    modifies m`seasonNumber, m`episodeNumber, m`seriesName
    ensures ComboFrom(start, 0) == (StateOf(m, fn', foundSeas, foundEp), done)
  {
    ghost var st := start;
    ghost var goal := ComboFrom(start, 0);
    fn', foundSeas, foundEp, done := fn, false, false, false;
    var k := 0;
    while k < |RegexSeasonAndEp| && !done
      invariant k <= |RegexSeasonAndEp| && st == StateOf(m, fn', foundSeas, foundEp)
      invariant !done ==> ComboFrom(st, k) == goal
      invariant done ==> goal == (st, true)
      decreases |RegexSeasonAndEp| - k
    {
      fn', foundSeas, foundEp, done, st := ComboRound(m, fn', foundSeas, foundEp, k, st);
      k := k + 1;
    }
    if !done {
      assert ComboFrom(st, |RegexSeasonAndEp|) == (st, false);
    }
  }

  /** The solo episode patterns, when the combined ones left the episode missing. */
  method MatchSoloEpisode(m: Media, fn: string, foundSeas: bool, foundEp: bool) returns (fn': string, foundEp': bool)
    modifies m`episodeNumber
    ensures StateOf(m, fn', foundSeas, foundEp') == SoloEpisodeStep(old(StateOf(m, fn, foundSeas, foundEp)))
  {
    fn', foundEp' := fn, foundEp;
    if !foundEp {
      var newFn := MatchEpisodeOnly(m, fn);
      if fn != newFn {
        fn' := newFn;
        foundEp' := true;
      }
    }
  }

  /** The solo season patterns on the name, then on the parent directory; false when that is needed and absent. */
  method MatchSoloSeason(m: Media, fn: string, foundSeas: bool, foundEp: bool, parentDir: Option<string>)
    returns (ok: bool, fn': string, foundSeas': bool)
    modifies m`seasonNumber
    ensures var r := SoloSeasonStep(old(StateOf(m, fn, foundSeas, foundEp)), parentDir);
      ok == r.Some? && (ok ==> r.value == StateOf(m, fn', foundSeas', foundEp))
  {
    fn', foundSeas' := fn, foundSeas;
    if !foundSeas {
      var newFn := MatchSeasonOnly(m, fn);
      if fn != newFn {
        fn' := newFn;
        foundSeas' := true;
      } else {
        if parentDir.None? {
          return false, fn', foundSeas';
        }
        var cleanedDir := RemoveUnwantedSpaces(parentDir.value);
        newFn := MatchSeasonOnly(m, cleanedDir);
        if cleanedDir != newFn {
          foundSeas' := true;
        }
      }
    }
    ok := true;
  }

  /** The solo patterns once the combined ones are exhausted; false when the parent is needed and absent. */
  method MatchRemaining(m: Media, fn: string, foundSeas: bool, foundEp: bool, parentDir: Option<string>)
    returns (ok: bool, fn': string, foundSeas': bool, foundEp': bool)
    modifies m`seasonNumber, m`episodeNumber
    ensures var r := AfterCombo(old(StateOf(m, fn, foundSeas, foundEp)), parentDir);
      ok == r.Some? && (ok ==> r.value == StateOf(m, fn', foundSeas', foundEp'))
  {
    fn', foundEp' := MatchSoloEpisode(m, fn, foundSeas, foundEp);
    ok, fn', foundSeas' := MatchSoloSeason(m, fn', foundSeas, foundEp', parentDir);
  }

  /** The legacy fallback on the object's fields: seasons(), episodes(), then the series name. */
  method LegacyParse(m: Media, fn: string)
    modifies m`seasonNumber, m`episodeNumber, m`seriesName
    ensures InfoOf(m) == LegacyInfo(fn, old(m.seasonNumber))
  {
    var rest := Seasons(m, fn);
    var before := Episodes(m, rest);
    m.seriesName := Trim(before);
  }

  /** Parses season, episode and series name out of the file name into the object's fields. */
  method ParseTVInfo(m: Media) returns (ok: bool)
    modifies m`seasonNumber, m`episodeNumber, m`seriesName
    ensures var r := ParseTVInfoOf(m.file, old(InfoOf(m)));
      ok == r.Some? && (ok ==> InfoOf(m) == r.value)
  {
    ghost var before := InfoOf(m);
    var stem := Stem(FileName(m.file));
    if stem.None? {
      return false;
    }
    var fn := RemoveUnwantedSpaces(stem.value);
    ok := ParseWorkingName(m, fn, ParentDirName(m.file), before);
  }

  /**
   * parseTVInfo once the working name `fn` is known, on the object whose fields are `before`:
   * the combined patterns, then the solo ones, then the legacy fallback (which re-derives the
   * cleaned name, that is `fn` again).
   */
  method ParseWorkingName(m: Media, fn: string, parentDir: Option<string>, ghost before: TVInfo) returns (ok: bool)
    requires InfoOf(m) == before
    modifies m`seasonNumber, m`episodeNumber, m`seriesName
    ensures var r := ParseName(fn, before, parentDir);
      ok == r.Some? && (ok ==> InfoOf(m) == r.value)
  {
    var fn', foundSeas, foundEp, done := MatchCombined(m, fn, StartState(fn, before));
    if done {
      return true;
    }
    ok, fn', foundSeas, foundEp := MatchRemaining(m, fn', foundSeas, foundEp, parentDir);
    if !ok {
      return false;
    }
    if !foundEp || !foundSeas {
      LegacyParse(m, fn);
    } else {
      m.seriesName := fn';
    }
  }

  // ---------------------------------------------------------------- extractTitleInfo

  /** The custom name: the trimmed series name, then " - SxxEyy", or " - Special" without an episode. */
  function CustomName(seriesName: string, season: nat, episode: int): string {
    if episode >= 0 then Trim(seriesName) + " - S" + ZeroPadded(season, 2) + "E" + ZeroPadded(episode, 2)
    else Trim(seriesName) + " - " + Special
  }

  /**
   * The custom name can be read back: after the trimmed series name and " - S" come two numerals
   * of at least two digits, separated by 'E', whose values are the season and the episode; the
   * name ends in "Special" exactly when there is no episode.
   */
  lemma CustomNameReadsBack(seriesName: string, season: nat, episode: int) returns (s: string, e: string)
    ensures episode >= 0 ==>
      CustomName(seriesName, season, episode) == Trim(seriesName) + " - S" + s + "E" + e &&
      AllDigits(s) && |s| >= 2 && DecimalValue(s) == season &&
      AllDigits(e) && |e| >= 2 && DecimalValue(e) == episode
    ensures EndsWith(CustomName(seriesName, season, episode), Special) <==> episode < 0
  {
    var name := CustomName(seriesName, season, episode);
    if episode >= 0 {
      s, e := ZeroPadded(season, 2), ZeroPadded(episode, 2);
      ZeroPaddedReadsBack(season, 2);
      ZeroPaddedReadsBack(episode, 2);
      assert name[|name| - 1] == e[|e| - 1];
      assert IsDigit(e[|e| - 1]);
      assert name[|name| - 1] != Special[|Special| - 1];
    } else {
      s, e := "", "";
      assert name[|name| - |Special|..] == Special;
    }
  }

  /** Everything extractTitleInfo stores: resolution, the parsed fields and the custom name. */
  datatype TVTitle = TVTitle(resolution: string, info: TVInfo, customName: string)

  /** The rest of extractTitleInfo once parsing is done: the bracket clean-up and the custom name. */
  function TitleFrom(resolution: string, parsed: Option<TVInfo>): Result<TVTitle, Failure> {
    if parsed.None? then Err(Throws)
    else
      var cleaned := BracketsRemoved(parsed.value.seriesName);
      if cleaned.None? then Err(Hangs)
      else
        var info := parsed.value.(seriesName := cleaned.value);
        Ok(TVTitle(resolution, info, CustomName(info.seriesName, info.season, info.episode)))
  }

  /**
   * extractTitleInfo after the parse: it fails exactly when the parse threw (Throws) or the bracket
   * clean-up never ends (Hangs); otherwise it keeps the resolution, the parsed season and episode,
   * takes the series name free of '[' and '(' groups, and names the episode from them.
   */
  lemma TitleFromLemma(resolution: string, parsed: Option<TVInfo>)
    ensures TitleFrom(resolution, parsed).Err? <==> parsed.None? || BracketsRemoved(parsed.value.seriesName).None?
    ensures parsed.None? ==> TitleFrom(resolution, parsed) == Err(Throws)
    ensures parsed.Some? && BracketsRemoved(parsed.value.seriesName).None? ==> TitleFrom(resolution, parsed) == Err(Hangs)
    ensures TitleFrom(resolution, parsed).Ok? ==>
      var t := TitleFrom(resolution, parsed).value;
      t.resolution == resolution && t.info.season == parsed.value.season && t.info.episode == parsed.value.episode &&
      '[' !in t.info.seriesName && '(' !in t.info.seriesName &&
      (forall c :: c in t.info.seriesName ==> c in parsed.value.seriesName) &&
      t.customName == CustomName(t.info.seriesName, t.info.season, t.info.episode)
  {
    if parsed.Some? && BracketsRemoved(parsed.value.seriesName).Some? {
      BracketsRemovedLemma(parsed.value.seriesName);
    }
  }

  /** extractTitleInfo: Throws when parsing throws, Hangs when the bracket clean-up never ends. */
  function ExtractTitleInfoOf(file: Path, before: TVInfo): Result<TVTitle, Failure> {
    TitleFrom(GetResolution(FileName(file)), ParseTVInfoOf(file, before))
  }

  /** What the TV constructor produces for a path: parsing starts from season 1, episode 0. */
  function TVTitleOf(path: Path): Result<TVTitle, Failure> {
    ExtractTitleInfoOf(path, TVInfo(1, 0, ""))
  }

  /** extractTitleInfo: the resolution first, then the parse, the clean-up and the custom name. */
  method ExtractTitleInfo(m: Media) returns (failure: Option<Failure>)
    modifies m`resolution, m`seasonNumber, m`episodeNumber, m`seriesName, m`customName
    ensures var r := TitleFrom(GetResolution(FileName(m.file)), ParseTVInfoOf(m.file, old(InfoOf(m))));
      (r.Err? ==> failure == Some(r.error)) &&
      (r.Ok? ==> failure.None? && TVTitle(m.resolution, InfoOf(m), m.customName) == r.value)
  {
    ghost var file, before := m.file, InfoOf(m);
    m.resolution := GetResolution(FileName(m.file));
    failure := ParseAndName(m, file, before);
  }

  /**
   * parseTVInfo followed by the bracket clean-up and the custom name, on the object whose file
   * and fields are `file` and `before`; Throws when the parse throws.
   */
  method ParseAndName(m: Media, ghost file: Path, ghost before: TVInfo) returns (failure: Option<Failure>)
    requires m.file == file && InfoOf(m) == before
    modifies m`seasonNumber, m`episodeNumber, m`seriesName, m`customName
    ensures var r := TitleFrom(m.resolution, ParseTVInfoOf(file, before));
      (r.Err? ==> failure == Some(r.error)) &&
      (r.Ok? ==> failure.None? && TVTitle(m.resolution, InfoOf(m), m.customName) == r.value)
  {
    var ok := ParseTVInfo(m);
    if ok {
      failure := CleanAndName(m);
    } else {
      failure := Some(Throws);
    }
  }

  /** The last two steps of extractTitleInfo on parsed fields: bracket clean-up, then the custom name. */
  method CleanAndName(m: Media) returns (failure: Option<Failure>)
    modifies m`seriesName, m`customName
    ensures var r := TitleFrom(m.resolution, Some(old(InfoOf(m))));
      (r.Err? ==> failure == Some(r.error)) &&
      (r.Ok? ==> failure.None? && TVTitle(m.resolution, InfoOf(m), m.customName) == r.value)
  {
    var cleaned := RemoveBrackets(m.seriesName);
    if cleaned.None? {
      return Some(Hangs);
    }
    m.seriesName := cleaned.value;
    m.customName := CustomName(m.seriesName, m.seasonNumber, m.episodeNumber);
    failure := None;
  }

  /** new TV(path): a TV media object with its title information parsed out of the file name. */
  method NewTV(path: Path) returns (m: Media, failure: Option<Failure>)
    ensures fresh(m) && m.mediaType == TV && m.file == path
    ensures var r := TVTitleOf(path);
      (r.Err? ==> failure == Some(r.error)) &&
      (r.Ok? ==> failure.None? && TVTitle(m.resolution, InfoOf(m), m.customName) == r.value)
  {
    m := new Media(path, TV);
    failure := ExtractTitleInfo(m);
  }

  /** generateCustomPathStructure: root / series name / "Season n" / custom name + extension. */
  function GenerateCustomPathStructure(m: Media, root: Path): (r: Path)
    reads m
    ensures Parent(r).Some?
  {
    CustomPath(m, m.file, root)
  }

  /**
   * The path generateCustomPathStructure gives the media object when its file is `file`. It
   * reads none of the fields a relocation changes.
   */
  function CustomPath(m: Media, file: Path, root: Path): (r: Path)
    reads m`seriesName, m`seasonNumber, m`customName
    ensures Parent(r).Some?
  {
    var tail := "/Season " + Decimal(m.seasonNumber) + "/" + m.customName + ExtOf(file);
    var rest := m.seriesName + tail;
    assert tail[0] == Separator && tail[1] == 'S';
    SeparatorAhead(m.seriesName, tail);
    JoinHasParent(root, rest);
    Join(root, rest)
  }

  /** isValid: the file is a regular file and both names are non-empty. */
  predicate IsValid(m: Media, files: set<Path>)
    reads m
  {
    m.file in files && m.seriesName != "" && m.customName != ""
  }

  /**
   * A TV object named by extractTitleInfo always has a custom name, so isValid comes down to a
   * regular file and a non-empty series name.
   */
  lemma ValidWhenNamed(m: Media, files: set<Path>)
    requires m.customName == CustomName(m.seriesName, m.seasonNumber, m.episodeNumber)
    ensures IsValid(m, files) <==> m.file in files && m.seriesName != ""
  {
    assert |m.customName| >= |" - "|;
  }

  // ---------------------------------------------------------------- a worked example

  const ExampleName: string := "Show - S01E02"

  /** At positions 0 to 3 of the example name the season-and-episode pattern does not match. */
  lemma ExampleNoMatch(q: nat)
    requires q < 4
    ensures MatchAt(SeasonAndEpisode, ExampleName, q).None?
  {
    var s := ExampleName;
    assert s[q] != ' ' && s[q] != '-';
    assert SpaceRunEnd(s, q) == q;
    if q == 0 {
      assert DigitRunEnd(s, 1) == 1;
    }
  }

  /** At position 4 it matches " - S01E02". */
  lemma ExampleMatch()
    ensures MatchAt(SeasonAndEpisode, ExampleName, 4) == Some(Hit(13, Some(1), Some(2)))
  {
    var s := ExampleName;
    assert SpaceRunEnd(s, 4) == 5 && SpaceRunEnd(s, 6) == 7;
    assert DigitRunEnd(s, 8) == 10 && DigitRunEnd(s, 11) == 13;
    assert s[8..10] == "01" && s[11..13] == "02";
    assert DecimalValue("0") == 0;
    assert DecimalValue("01") == 1;
    assert DecimalValue("02") == 2;
    assert SpaceRunEnd(s, 10) == 10;
  }

  /** So Matcher.find reports that match, at the space before the dash. */
  lemma ExampleFind()
    ensures Find(SeasonAndEpisode, ExampleName) == Some((4, Hit(13, Some(1), Some(2))))
  {
    ExampleMatch();
    forall q: nat | q < 4 ensures MatchAt(SeasonAndEpisode, ExampleName, q).None? {
      ExampleNoMatch(q);
    }
    FindLeftmost(SeasonAndEpisode, ExampleName);
  }

  /** The series name left once group 0 is removed and the rest trimmed. */
  lemma ExampleSeriesName()
    ensures Trim(Remove(ExampleName, ExampleName[4..13])) == "Show"
  {
    var s, g := ExampleName, ExampleName[4..13];
    assert g == " - S01E02";
    forall k | 0 <= k < 4 ensures !OccursAt(s, g, k) {
      assert s[k..k + |g|][0] == s[k] != g[0];
    }
    assert s[4..13] == g;
    RemoveFirst(s, g, 4);
    assert s[4 + |g|..] == "" && s[..4] == "Show";
    assert Remove("", g) == "";
  }

  const ExampleFileName: string := ExampleName + ".mkv"
  const ExampleFile: Path := "/tv/" + ExampleFileName

  /** The file name of the example path: everything after its last separator. */
  lemma ExampleFileNameIs()
    ensures FileName(ExampleFile) == ExampleFileName
  {
    ExampleLastSeparator();
    FileNameAfter(ExampleFile, 3);
  }

  /** The example path's last separator is the one after "/tv". */
  lemma ExampleLastSeparator()
    ensures LastSeparatorAt(ExampleFile, 3) && ExampleFile[4..] == ExampleFileName
  {
    assert Separator !in ExampleName;
    assert ExampleFile[4..] == ExampleFileName;
  }

  /** Its stem: the file name up to the last '.'. */
  lemma ExampleStem()
    ensures Stem(ExampleFileName) == Some(ExampleName)
  {
    var name := ExampleFileName;
    LastIndexOfChar(name, '.');
    assert name[13] == '.' && '.' !in name[14..];
    assert name[..13] == ExampleName;
  }

  /** The stem holds neither '.' nor '_', so removeUnwantedSpaces leaves it alone. */
  lemma ExampleSpaces()
    ensures UnwantedSpacesRemoved(ExampleName) == ExampleName
  {
    NoUnwantedUnchanged(ExampleName);
  }

  /** A working name whose first match is that of the example parses as the example does. */
  lemma DecidedAtStart(fn: string, parentDir: Option<string>)
    requires Find(SeasonAndEpisode, fn) == Some((4, Hit(13, Some(1), Some(2))))
    requires Trim(Remove(fn, fn[4..13])) == "Show"
    ensures ParseName(fn, TVInfo(1, 0, ""), parentDir) == Some(TVInfo(1, 2, "Show"))
  {
    var before := TVInfo(1, 0, "");
    assert Decides(StartState(fn, before), 0);
    ParseNameDecided(fn, before, parentDir);
  }

  /** The working name parses to season 1, episode 2, series "Show", whatever the parent. */
  lemma ExampleParseName(parentDir: Option<string>)
    ensures ParseName(ExampleName, TVInfo(1, 0, ""), parentDir) == Some(TVInfo(1, 2, "Show"))
  {
    ExampleFind();
    ExampleSeriesName();
    DecidedAtStart(ExampleName, parentDir);
  }

  /**
   * "/tv/Show - S01E02.mkv", parsed from the constructor's starting fields, gives season 1,
   * episode 2 and series name "Show".
   */
  lemma ParseExample()
    ensures ParseTVInfoOf(ExampleFile, TVInfo(1, 0, "")) == Some(TVInfo(1, 2, "Show"))
  {
    ExampleFileNameIs();
    ExampleStem();
    ExampleSpaces();
    ExampleParseName(ParentDirName(ExampleFile));
  }
}
