/**
 * The movie parser: a release year found as a word-bounded four-digit token, first in the file
 * name and then in the parent directory's name; the title is what precedes the year (or the
 * whole stem when there is none), cleaned of brackets, dots and underscores.
 */
module Movie {
  import opened Wrappers
  import opened Text
  import opened Paths
  import opened Matching
  import opened MetadataOps
  import opened Media

  const UnknownReleaseYear: int := -1

  /** The characters \b counts as word characters (ASCII letters, digits and '_'). */
  predicate IsWordChar(c: char) {
    'a' <= c <= 'z' || 'A' <= c <= 'Z' || IsDigit(c) || c == '_'
  }

  /** A word boundary before position p, which holds a digit. */
  predicate BoundaryBefore(s: string, p: nat) {
    p == 0 || (p <= |s| && !IsWordChar(s[p - 1]))
  }

  /** A word boundary at position e, which follows a digit. */
  predicate BoundaryAfter(s: string, e: nat) {
    e == |s| || (e < |s| && !IsWordChar(s[e]))
  }

  /** Digit k of the current year's numeral: the pattern bounds its second and third year digits by them. */
  function YearDigit(currentYear: nat, k: nat): nat
    requires currentYear >= 100 && k < 3
  {
    var d := Decimal(currentYear);
    assert |d| >= 3 by {
      if |d| < 3 {
        assert DecimalValue(d) < 100 by { SmallNumeral(d); }
      }
    }
    DigitValue(d[k])
  }

  lemma SmallNumeral(d: string)
    requires AllDigits(d) && |d| < 3
    ensures DecimalValue(d) < 100
  {
    if |d| == 2 {
      assert DecimalValue(d[..1]) == DigitValue(d[0]) by {
        assert d[..1][..0] == [];
      }
    } else if |d| == 1 {
      assert d[..0] == [];
    }
  }

  /**
   * The years the pattern `1[8-9][0-9][0-9]|2[0-d1][0-d2][0-9]` accepts, as numbers: 1800 to
   * 1999, and from 2000 those whose hundreds and tens digits stay within the current year's.
   */
  predicate AcceptedYear(y: nat, currentYear: nat)
    requires currentYear >= 100
  {
    1800 <= y <= 1999 ||
    (2000 <= y <= 2999 && (y / 100) % 10 <= YearDigit(currentYear, 1) && (y / 10) % 10 <= YearDigit(currentYear, 2))
  }

  /** The value of a four-digit numeral, digit by digit. */
  lemma FourDigits(d: string)
    requires |d| == 4 && AllDigits(d)
    ensures DecimalValue(d) == 1000 * DigitValue(d[0]) + 100 * DigitValue(d[1]) + 10 * DigitValue(d[2]) + DigitValue(d[3])
  {
    var a, b, c := d[..1], d[..2], d[..3];
    assert DecimalValue(a) == DigitValue(d[0]) by {
      assert a[..0] == [];
    }
    assert DecimalValue(b) == DecimalValue(a) * 10 + DigitValue(d[1]) by {
      assert b[..1] == a;
    }
    assert DecimalValue(c) == DecimalValue(b) * 10 + DigitValue(d[2]) by {
      assert c[..2] == b;
    }
    assert d[..3] == c;
  }

  /** The hundreds and tens digits of a number given by its four digits. */
  lemma YearDigitsOf(a: nat, b: nat, c: nat, e: nat)
    requires a < 10 && b < 10 && c < 10 && e < 10
    ensures var y := 1000 * a + 100 * b + 10 * c + e;
      y / 100 == 10 * a + b && (y / 100) % 10 == b && y / 10 == 100 * a + 10 * b + c && (y / 10) % 10 == c
  {
  }

  /** The character classes of the pattern, on the four digits of a candidate. */
  predicate YearPattern(d: string, currentYear: nat)
    requires |d| == 4 && AllDigits(d) && currentYear >= 100
  {
    (d[0] == '1' && '8' <= d[1]) ||
    (d[0] == '2' && DigitValue(d[1]) <= YearDigit(currentYear, 1) && DigitValue(d[2]) <= YearDigit(currentYear, 2))
  }

  /** The character classes accept exactly the numerals of the accepted years. */
  lemma YearPatternLemma(d: string, currentYear: nat)
    requires |d| == 4 && AllDigits(d) && currentYear >= 100
    ensures YearPattern(d, currentYear) <==> AcceptedYear(DecimalValue(d), currentYear)
  {
    FourDigits(d);
    YearDigitsOf(DigitValue(d[0]), DigitValue(d[1]), DigitValue(d[2]), DigitValue(d[3]));
  }

  /** The release-year pattern tried at p: the year when it matches there. */
  function YearAt(s: string, p: nat, currentYear: nat): (r: Option<nat>)
    requires currentYear >= 100
    ensures r.Some? ==> p + 4 <= |s| && AllDigits(s[p..p + 4]) && r.value == DecimalValue(s[p..p + 4])
    ensures r.Some? ==> BoundaryBefore(s, p) && BoundaryAfter(s, p + 4)
    ensures r.Some? ==> AcceptedYear(r.value, currentYear)
  {
    if p + 4 <= |s| && AllDigits(s[p..p + 4]) && BoundaryBefore(s, p) && BoundaryAfter(s, p + 4) then
      var d := s[p..p + 4];
      YearPatternLemma(d, currentYear);
      if YearPattern(d, currentYear) then Some(DecimalValue(d)) else None
    else None
  }

  /** Every accepted, word-bounded four-digit year is matched where it stands. */
  lemma YearAtComplete(s: string, p: nat, currentYear: nat)
    requires currentYear >= 100
    requires p + 4 <= |s| && AllDigits(s[p..p + 4]) && BoundaryBefore(s, p) && BoundaryAfter(s, p + 4)
    requires AcceptedYear(DecimalValue(s[p..p + 4]), currentYear)
    ensures YearAt(s, p, currentYear) == Some(DecimalValue(s[p..p + 4]))
  {
    YearPatternLemma(s[p..p + 4], currentYear);
  }

  function YearMatcher(s: string, currentYear: nat): nat -> Option<nat>
    requires currentYear >= 100
  {
    (q: nat) => YearAt(s, q, currentYear)
  }

  /** The release-year pattern matches nowhere in s. */
  ghost predicate NoYear(s: string, currentYear: nat)
    requires currentYear >= 100
  {
    forall p: nat :: YearAt(s, p, currentYear).None?
  }

  /** y is the year the pattern matches at its leftmost match position in s. */
  ghost predicate LeftmostYear(s: string, y: nat, currentYear: nat)
    requires currentYear >= 100
  {
    exists p: nat :: YearAt(s, p, currentYear) == Some(y) && forall q: nat :: q < p ==> YearAt(s, q, currentYear).None?
  }

  /** Matcher.find with the release-year pattern: a year the pattern matches in s, or none. */
  function FindYear(s: string, currentYear: nat): (r: Option<nat>)
    requires currentYear >= 100
    ensures r.Some? ==> exists p: nat :: YearAt(s, p, currentYear) == Some(r.value)
    ensures r.None? ==> NoYear(s, currentYear)
  {
    var at := YearMatcher(s, currentYear);
    var found := Leftmost(at, 0, |s|);
    assert forall q: nat :: at(q) == YearAt(s, q, currentYear);
    if found.Some? then
      assert YearAt(s, found.value.0, currentYear) == Some(found.value.1);
      Some(found.value.1)
    else None
  }

  /** The year FindYear reports is the one at the leftmost match position; none means no match anywhere. */
  lemma FindYearLeftmost(s: string, currentYear: nat)
    requires currentYear >= 100
    ensures FindYear(s, currentYear).Some? ==> LeftmostYear(s, FindYear(s, currentYear).value, currentYear)
    ensures FindYear(s, currentYear).None? <==> NoYear(s, currentYear)
  {
    var at := YearMatcher(s, currentYear);
    var found := Leftmost(at, 0, |s|);
    assert forall q: nat :: at(q) == YearAt(s, q, currentYear);
    if found.Some? {
      var p := found.value.0;
      assert YearAt(s, p, currentYear) == Some(found.value.1);
      assert forall q: nat :: q < p ==> YearAt(s, q, currentYear).None?;
    }
  }

  /**
   * parseReleaseYear: the year in the file's name, else the one in its parent directory's name,
   * else -1. None when the parent is needed and the file has none.
   */
  function ReleaseYearOf(file: Path, currentYear: nat): (r: Option<int>)
    requires currentYear >= 100
    ensures r.Some? ==> r.value == UnknownReleaseYear || 1800 <= r.value
  {
    var inName := FindYear(FileName(file), currentYear);
    if inName.Some? then Some(inName.value)
    else
      var parent := ParentDirName(file);
      if parent.None? then None
      else
        var inParent := FindYear(parent.value, currentYear);
        if inParent.Some? then Some(inParent.value) else Some(UnknownReleaseYear)
  }

  /**
   * Where the release year comes from: the leftmost year of the file name; failing that, the
   * leftmost year of the parent directory's name; failing that, -1. Without a year in the name
   * and without a parent directory there is no year at all (parseReleaseYear throws).
   */
  lemma ReleaseYearSources(file: Path, currentYear: nat)
    requires currentYear >= 100
    ensures var r := ReleaseYearOf(file, currentYear);
      (r.None? <==> NoYear(FileName(file), currentYear) && ParentDirName(file).None?) &&
      (r == Some(UnknownReleaseYear) <==>
        NoYear(FileName(file), currentYear) && ParentDirName(file).Some? && NoYear(ParentDirName(file).value, currentYear)) &&
      (r.Some? && r.value != UnknownReleaseYear ==>
        LeftmostYear(FileName(file), r.value, currentYear) ||
        (NoYear(FileName(file), currentYear) && ParentDirName(file).Some? &&
         LeftmostYear(ParentDirName(file).value, r.value, currentYear)))
  {
    FindYearLeftmost(FileName(file), currentYear);
    if ParentDirName(file).Some? {
      FindYearLeftmost(ParentDirName(file).value, currentYear);
    }
  }

  /** MetadataOps.removeUnwantedSpaces(MetadataOps.removeBrackets(raw)).trim(); None when it never ends. */
  function CleanTitle(raw: string): (r: Option<string>)
    ensures r.Some? ==> '.' !in r.value && '_' !in r.value && '[' !in r.value && '(' !in r.value
  {
    var cleaned := BracketsRemoved(raw);
    if cleaned.None? then None
    else
      BracketsRemovedLemma(raw);
      var spaced := UnwantedSpacesRemoved(cleaned.value);
      assert '[' !in spaced && '(' !in spaced by {
        if '[' in spaced {
          UnwantedSpacesKeepsChars(cleaned.value, '[');
        }
        if '(' in spaced {
          UnwantedSpacesKeepsChars(cleaned.value, '(');
        }
      }
      Some(Trim(spaced))
  }

  /** Everything extractTitleInfo stores for a movie. */
  datatype MovieTitle = MovieTitle(resolution: string, releaseYear: int, movieName: string, customName: string)

  /**
   * The rest of extractTitleInfo once the year is known (None: parseReleaseYear threw). A name
   * without a '.' throws, with a known year too: the closing trace cuts the name at its last '.'.
   */
  function MovieTitleFrom(resolution: string, name: string, year: Option<int>): Result<MovieTitle, Failure>
    requires year.Some? ==> year.value == UnknownReleaseYear || year.value >= 0
  {
    if year.None? then Err(Throws)
    else if year.value == UnknownReleaseYear then
      var stem := Stem(name);
      if stem.None? then Err(Throws)
      else
        var title := CleanTitle(stem.value);
        if title.None? then Err(Hangs)
        else Ok(MovieTitle(resolution, UnknownReleaseYear, title.value, title.value))
    else
      var at := LastIndexOf(name, Decimal(year.value));
      if at.None? then Err(Throws)
      else
        var title := CleanTitle(name[..at.value]);
        if title.None? then Err(Hangs)
        else if Stem(name).None? then Err(Throws)
        else Ok(MovieTitle(resolution, year.value, title.value, title.value + " (" + Decimal(year.value) + ")"))
  }

  /** What the Movie constructor produces for a path. */
  function MovieTitleOf(path: Path, currentYear: nat): Result<MovieTitle, Failure>
    requires currentYear >= 100
  {
    MovieTitleFrom(GetResolution(FileName(path)), FileName(path), ReleaseYearOf(path, currentYear))
  }

  /**
   * The names a parsed movie gets: a cleaned title free of dots, underscores and opening brackets;
   * the custom name is that title, followed by " (<year>)" exactly when the year is known.
   */
  lemma MovieNamesLemma(path: Path, currentYear: nat)
    requires currentYear >= 100 && MovieTitleOf(path, currentYear).Ok?
    ensures var t := MovieTitleOf(path, currentYear).value;
      '.' !in t.movieName && '_' !in t.movieName && '[' !in t.movieName && '(' !in t.movieName &&
      t.resolution == GetResolution(FileName(path)) &&
      (t.releaseYear == UnknownReleaseYear <==> t.customName == t.movieName) &&
      (t.releaseYear != UnknownReleaseYear ==> t.releaseYear >= 1800 && t.customName == t.movieName + " (" + Decimal(t.releaseYear) + ")")
  {
    var year := ReleaseYearOf(path, currentYear);
    TitleFromYearNames(GetResolution(FileName(path)), FileName(path), year);
  }

  /** The same facts for the names built once the year is known. */
  lemma TitleFromYearNames(resolution: string, name: string, year: Option<int>)
    requires year.Some? ==> year.value == UnknownReleaseYear || year.value >= 0
    requires MovieTitleFrom(resolution, name, year).Ok?
    ensures var t := MovieTitleFrom(resolution, name, year).value;
      '.' !in t.movieName && '_' !in t.movieName && '[' !in t.movieName && '(' !in t.movieName &&
      t.resolution == resolution && year == Some(t.releaseYear) &&
      (t.releaseYear == UnknownReleaseYear <==> t.customName == t.movieName) &&
      (t.releaseYear != UnknownReleaseYear ==> t.customName == t.movieName + " (" + Decimal(t.releaseYear) + ")")
  {
    var t := MovieTitleFrom(resolution, name, year).value;
    if t.releaseYear != UnknownReleaseYear {
      assert |t.customName| > |t.movieName|;
    }
  }

  /**
   * A year found in the file name is found again by lastIndexOf, so the prefix lookup never
   * throws for it; only a name without a '.' still throws.
   */
  lemma YearInNameDoesNotThrow(path: Path, currentYear: nat)
    requires currentYear >= 100 && FindYear(FileName(path), currentYear).Some?
    ensures ReleaseYearOf(path, currentYear) == FindYear(FileName(path), currentYear)
    ensures LastIndexOf(FileName(path), Decimal(FindYear(FileName(path), currentYear).value)).Some?
    ensures MovieTitleOf(path, currentYear) == Err(Throws) ==> Stem(FileName(path)).None?
  {
    var s := FileName(path);
    var y := FindYear(s, currentYear).value;
    YearSpelledOut(s, currentYear);
    assert MovieTitleOf(path, currentYear) == MovieTitleFrom(GetResolution(s), s, Some(y));
    FoundYearThrowsOnlyWithoutStem(GetResolution(s), s, y);
  }

  /** With a year that lastIndexOf finds, only a name without a '.' makes the title lookup throw. */
  lemma FoundYearThrowsOnlyWithoutStem(resolution: string, s: string, y: nat)
    requires LastIndexOf(s, Decimal(y)).Some?
    ensures MovieTitleFrom(resolution, s, Some(y)) == Err(Throws) ==> Stem(s).None?
  {
  }

  /** The numeral of a year the pattern finds occurs in the text, so lastIndexOf finds it. */
  lemma YearSpelledOut(s: string, currentYear: nat)
    requires currentYear >= 100 && FindYear(s, currentYear).Some?
    ensures LastIndexOf(s, Decimal(FindYear(s, currentYear).value)).Some?
  {
    var y := FindYear(s, currentYear).value;
    var p: nat :| YearAt(s, p, currentYear) == Some(y);
    var d := s[p..p + 4];
    FourDigits(d);
    NumeralRoundTrip(d);
    assert OccursAt(s, Decimal(y), p);
  }

  /**
   * A year taken from the parent directory's name that the file name does not spell out makes
   * the prefix lookup fail, and extractTitleInfo throws.
   */
  lemma ParentOnlyYearThrows(path: Path, currentYear: nat)
    requires currentYear >= 100 && FindYear(FileName(path), currentYear).None?
    requires ParentDirName(path).Some? && FindYear(ParentDirName(path).value, currentYear).Some?
    requires !Contains(FileName(path), Decimal(FindYear(ParentDirName(path).value, currentYear).value))
    ensures MovieTitleOf(path, currentYear) == Err(Throws)
  {
    var y := FindYear(ParentDirName(path).value, currentYear).value;
    if LastIndexOf(FileName(path), Decimal(y)).Some? {
      OccursImpliesContains(FileName(path), Decimal(y), LastIndexOf(FileName(path), Decimal(y)).value);
    }
  }

  method ParseReleaseYear(m: Media, currentYear: nat) returns (ok: bool)
    requires currentYear >= 100
    modifies m`releaseYear
    ensures var r := ReleaseYearOf(m.file, currentYear);
      ok == r.Some? && (ok ==> m.releaseYear == r.value)
  {
    var fileName := FileName(m.file);
    var found := FindYear(fileName, currentYear);
    if found.Some? {
      m.releaseYear := found.value;
      return true;
    }
    var parent := ParentDirName(m.file);
    if parent.None? {
      return false;
    }
    found := FindYear(parent.value, currentYear);
    if found.Some? {
      m.releaseYear := found.value;
    } else {
      m.releaseYear := UnknownReleaseYear;
    }
    ok := true;
  }

  /** The cleaning chain on a raw title, with the two MetadataOps methods. */
  method CleanTitleOf(raw: string) returns (r: Option<string>)
    ensures r == CleanTitle(raw)
  {
    var cleaned := RemoveBrackets(raw);
    if cleaned.None? {
      return None;
    }
    var spaced := RemoveUnwantedSpaces(cleaned.value);
    r := Some(Trim(spaced));
  }

  /** The names once the year is known, as extractTitleInfo sets them; `year` is that year. */
  method NamesFromYear(m: Media, name: string, ghost year: Option<int>) returns (failure: Option<Failure>)
    requires year == Some(m.releaseYear) && (m.releaseYear == UnknownReleaseYear || m.releaseYear >= 0)
    modifies m`movieName, m`customName
    ensures var r := MovieTitleFrom(m.resolution, name, year);
      (r.Err? ==> failure == Some(r.error)) &&
      (r.Ok? ==> failure.None? && MovieTitle(m.resolution, m.releaseYear, m.movieName, m.customName) == r.value)
  {
    if m.releaseYear == UnknownReleaseYear {
      var stem := Stem(name);
      if stem.None? {
        return Some(Throws);
      }
      var title := CleanTitleOf(stem.value);
      if title.None? {
        return Some(Hangs);
      }
      m.movieName := title.value;
      m.customName := title.value;
    } else {
      var at := LastIndexOf(name, Decimal(m.releaseYear));
      if at.None? {
        return Some(Throws);
      }
      var title := CleanTitleOf(name[..at.value]);
      if title.None? {
        return Some(Hangs);
      }
      m.movieName := title.value;
      m.customName := title.value + " (" + Decimal(m.releaseYear) + ")";
      if Stem(name).None? {
        return Some(Throws);
      }
    }
    failure := None;
  }

  method ExtractTitleInfo(m: Media, currentYear: nat) returns (failure: Option<Failure>)
    requires currentYear >= 100
    modifies m`resolution, m`releaseYear, m`movieName, m`customName
    ensures var r := MovieTitleOf(m.file, currentYear);
      (r.Err? ==> failure == Some(r.error)) &&
      (r.Ok? ==> failure.None? && MovieTitle(m.resolution, m.releaseYear, m.movieName, m.customName) == r.value)
  {
    var name := FileName(m.file);
    ghost var year := ReleaseYearOf(m.file, currentYear);
    m.resolution := GetResolution(name);
    failure := YearAndNames(m, name, currentYear, year);
  }

  /**
   * parseReleaseYear followed by the names, on the object whose file has name `name` and whose
   * release year, as parseReleaseYear finds it, is `year`; Throws when parseReleaseYear throws.
   */
  method YearAndNames(m: Media, name: string, currentYear: nat, ghost year: Option<int>) returns (failure: Option<Failure>)
    requires currentYear >= 100 && name == FileName(m.file) && year == ReleaseYearOf(m.file, currentYear)
    modifies m`releaseYear, m`movieName, m`customName
    ensures var r := MovieTitleFrom(m.resolution, name, year);
      (r.Err? ==> failure == Some(r.error)) &&
      (r.Ok? ==> failure.None? && MovieTitle(m.resolution, m.releaseYear, m.movieName, m.customName) == r.value)
  {
    var ok := ParseReleaseYear(m, currentYear);
    if !ok {
      return Some(Throws);
    }
    failure := NamesFromYear(m, name, year);
  }

  /** new Movie(path): a movie media object with its title information parsed out of the file name. */
  method NewMovie(path: Path, currentYear: nat) returns (m: Media, failure: Option<Failure>)
    requires currentYear >= 100
    ensures fresh(m) && m.mediaType == MOVIE && m.file == path
    ensures var r := MovieTitleOf(path, currentYear);
      (r.Err? ==> failure == Some(r.error)) &&
      (r.Ok? ==> failure.None? && MovieTitle(m.resolution, m.releaseYear, m.movieName, m.customName) == r.value)
  {
    m := new Media(path, MOVIE);
    failure := ExtractTitleInfo(m, currentYear);
  }

  /** generateCustomPathStructure: root / movie name / custom name + extension. */
  function GenerateCustomPathStructure(m: Media, root: Path): (r: Path)
    reads m
    ensures ExtOf(m.file) != "" ==> Parent(r).Some?
  {
    CustomPath(m, m.file, root)
  }

  /**
   * The path generateCustomPathStructure gives the media object when its file is `file`. It
   * reads none of the fields a relocation changes.
   */
  function CustomPath(m: Media, file: Path, root: Path): (r: Path)
    reads m`movieName, m`customName
    ensures ExtOf(file) != "" ==> Parent(r).Some?
  {
    var ext := ExtOf(file);
    var rest := m.movieName + "/" + m.customName + ext;
    if ext != "" then
      assert rest[|m.movieName|] == Separator && rest[|m.movieName| + 1 + |m.customName|] == ext[0] == '.';
      JoinHasParent(root, rest);
      Join(root, rest)
    else
      Join(root, rest)
  }

  /** isValid: the file is a regular file and both names are non-empty. */
  predicate IsValid(m: Media, files: set<Path>)
    reads m
  {
    m.file in files && m.movieName != "" && m.customName != ""
  }

  /**
   * A movie object named by extractTitleInfo has a custom name exactly when it has a movie name
   * or a known year, so isValid comes down to a regular file and a non-empty movie name.
   */
  lemma ValidWhenNamed(m: Media, files: set<Path>)
    requires m.releaseYear == UnknownReleaseYear || m.releaseYear >= 0
    requires m.customName == if m.releaseYear == UnknownReleaseYear then m.movieName
      else m.movieName + " (" + Decimal(m.releaseYear) + ")"
    ensures IsValid(m, files) <==> m.file in files && m.movieName != ""
  {
    if m.releaseYear != UnknownReleaseYear && m.movieName == "" {
      assert m.customName[0] == ' ';
    }
  }
}
