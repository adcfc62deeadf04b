# Relocatinator core in Dafny

Relocatinator files video media into a library.

- **Parsing.** It reads a TV episode's series, season and episode out of the file name. It reads a movie's title and release year the same way, and the resolution of either kind.
- **Grouping.** It groups the files it finds into a queue of lists. TV gets one list per directory. A movie gets one list per file. Each list is named by a majority vote over its items' titles.
- **Relocation.** It moves every item to the path its metadata dictates. An atomic move is tried first. When the file system cannot move atomically, it falls back to a copy, validates the copy by an MD5 checksum, and only then deletes the source.

This project models that core and proves what it promises.

Modules (one file each):

| module | file | models |
|---|---|---|
| `Wrappers` | `wrappers.dfy` | `Option` and `Result` |
| `Text` | `text.dfy` | the `java.lang.String` / `Integer` operations the parsers use: `toString`, `String.format` padding, `toLowerCase`, `trim`, `indexOf`, `lastIndexOf`, `contains`, `replace` |
| `Matching` | `matching.dfy` | leftmost search, as `Matcher.find` does it |
| `Paths` | `paths.dfy` | `java.io.File` path normalisation, `getParent`, `getName`, and the extension and stem a file name has around its last `.` |
| `MetadataOps` | `metadata_ops.dfy` | `getResolution`, `removeUnwantedSpaces`, `removeBrackets` |
| `TVPatterns` | `tv_patterns.dfy` | each fixed TV regular expression as a hand-written scanner; the regex engine is not modelled |
| `TV` | `tv.dfy` | the TV parser: the combined patterns, then the solo patterns, then the parent directory, then the template search; the custom name; the destination path |
| `Movie` | `movie.dfy` | the movie parser: the year bounded by the current year's digits, the title, the destination path |
| `Media` | `media.dfy` | the media object, a class whose `file` is updated in place |
| `MediaQueue` | `media_queue.dfy` | `MediaQueue` and `MediaList` as classes, with input checks, tally and majority naming |
| `FileSystem` | `file_system.dfy` | a file map `map<Path, seq<bv8>>` plus a directory set; creating directories, moving, copying and deleting can fail nondeterministically, and a copy may write any bytes at all |
| `Checksum` | `checksum.dfy` | the chunked digest feed and the hex encoding; MD5 is a function parameter `hash` |
| `Relocation` | `relocation.dfy` | `yjohnson/Operations.java`: the atomic runner and the non-atomic runner, `safeNonAtomicMove`, `copyMedia`, `removeSourceFilePostMove`, `MediaIOWrapper` |
| `OrganizedMove` | `organized_move.dfy` | `media/Operations.java`: `organizedMove` and `moveMedia` |
| `FileOperation` | `file_operation.dfy` | the `FileOperation` enum and `toStringArray` |

How the model is built:

- **Imperative code is modelled as methods.** The methods update a `Media` object, a `MediaList`, a `MediaQueue`, a `MediaIOWrapper` or the `FileSystem` in place. Each one is proved against a specification function, for example `TV.ParseTVInfoOf`, `Movie.MovieTitleOf`, `MetadataOps.BracketsRemoved` or `Checksum.ChecksumOf`. The lemmas are about those functions.
- **An exception or a hang is an outcome.** A Java exception that ends a constructor becomes `Failure.Throws`, and a loop that never ends becomes `Failure.Hangs`. In the runners, an exception that ends the whole run becomes the `aborted` result.
- **The runners return ghost records.** Both relocation runners and `organizedMove` return one record per item they reached, in queue order, with the file system before and after each item. Each record names the item's media object. When no media object is queued twice, it also names the file the item had before the run and the destination computed from it, and the item's file now is where the record says: at its source, or at its destination on a success. Between its two states each item is a `Step`: a source that disappeared has its target holding bytes with the source's digest, and no other file changed. The items the run did not reach still hold their files. Safety is stated per item because a later item may overwrite an earlier target.

## Model

| member | source | states |
|---|---|---|
| Text.DigitChar | src/main/java/media/TV.java:65 | the character written for a digit is a digit and reads back as that digit |
| Text.Decimal | src/main/java/media/Movie.java:59 | `Integer.toString` of a natural number is a non-empty digit string that reads back as the number, with no leading zero except for 0 |
| Text.NumeralRoundTrip | src/main/java/media/Movie.java:59 | a numeral with no leading zero is what `Integer.toString` writes for its value |
| Text.Repeat | src/main/java/media/TV.java:294 | a run of `n` copies of one character |
| Text.ZeroPaddedReadsBack | src/main/java/media/TV.java:65 | `%02d`-style padding gives a digit string at least `width` long that reads back as the number |
| Text.SpacePaddedShape | src/main/java/media/TV.java:294 | `%2d`-style padding is the decimal numeral preceded by spaces, `width` characters long, or the numeral alone when it is wider |
| Text.DecimalValueAppend | src/main/java/media/TV.java:281 | appending a digit multiplies the value by ten and adds the digit |
| Text.LeadingZerosLemma | src/main/java/media/TV.java:281 | leading zeros do not change a numeral's value |
| Text.ZerosValue | src/main/java/media/TV.java:281 | a run of zeros reads as 0 |
| Text.Lower | src/main/java/media/TV.java:303 | `toLowerCase` keeps the length and folds each character |
| Text.FirstKept | src/main/java/media/TV.java:64 | the first index from `i` that `trim` keeps, with everything before it trimmable |
| Text.KeptEnd | src/main/java/media/TV.java:64 | the end index that `trim` keeps, with everything after it trimmable |
| Text.Trim | src/main/java/media/TV.java:64 | `trim` is the input with a prefix and a suffix of trimmable characters cut off; it starts and ends with a kept character, is empty exactly when every character is trimmable, and leaves an already trimmed string unchanged |
| Text.IndexOfFrom | src/main/java/media/TV.java:284 | `indexOf` from `i` returns the first occurrence at or after `i`, or none when there is none |
| Text.IndexOf | src/main/java/media/TV.java:284 | `indexOf` returns the first occurrence, or none when there is none |
| Text.OccursImpliesContains | src/main/java/media/TV.java:346 | an occurrence makes `contains` true, and `indexOf` is no later than it |
| Text.LastIndexFrom | src/main/java/media/Movie.java:59 | the last occurrence at or before `k`, or none when there is none |
| Text.LastIndexOf | src/main/java/media/Movie.java:59 | `lastIndexOf` returns the last occurrence, or none when there is none |
| Text.RemoveShortens | src/main/java/media/TV.java:202 | `replace(t, "")` never lengthens, and shortens by at least the length of `t` when `t` occurs |
| Text.RemoveKeepsChars | src/main/java/media/TV.java:202 | `replace(t, "")` introduces no character |
| Text.ReplaceChar | src/main/java/yjohnson/FileOperation.java:12 | `replace(a, b)` keeps the length and swaps exactly the `a`s for `b`s |
| Text.ReplaceOneCharLemma | src/main/java/yjohnson/FileOperation.java:12 | replacing the one-character string `a` with `b` is the character replacement |
| Text.NoCharBefore | src/main/java/yjohnson/FileOperation.java:12 | a one-character string that does not occur before position n means that character is absent there |
| Text.ReplaceAbsent | src/main/java/yjohnson/FileOperation.java:12 | replacing a character the string does not contain leaves it unchanged |
| Text.ReplaceCharSplit | src/main/java/yjohnson/FileOperation.java:12 | the character replacement splits at an occurrence: the part before, the new character, and the replaced rest |
| Text.ContainsChar | src/main/java/media/Operations.java:40 | `contains` of a one-character string holds exactly when the character occurs |
| Text.OccursChar | src/main/java/media/Operations.java:40 | a one-character string occurs at `j` exactly when that character stands at `j` |
| Text.LastIndexOfChar | src/main/java/media/Operations.java:40 | `lastIndexOf(c)` is none exactly when `c` does not occur, and otherwise a position holding `c` with no `c` after it |
| Text.RemoveFirst | src/main/java/media/TV.java:202 | `replace(t, "")` finds the first occurrence, cuts it out and goes on with the rest after it |
| Matching.Leftmost | src/main/java/media/TV.java:83 | `find` returns the first position in range where the pattern matches, with no match before it, or none when nothing in range matches |
| Paths.Collapse | src/main/java/media/TV.java:376-386 | the separators `File` merges: no double separator, the same first and last character, never longer |
| Paths.Normalize | src/main/java/media/TV.java:376-386 | a normalised path has no double separator and no trailing separator, and is never longer |
| Paths.Parent | src/main/java/yjohnson/Operations.java:59 | `getParent` is none exactly for a path without a separator or the root alone; otherwise it is the root when the only separator leads the path, and else the non-empty, strictly shorter prefix before the last separator |
| Paths.FileName | src/main/java/media/TV.java:58 | `getName` is the end of the path after its last separator: it holds no separator, ends the path, and a separator stands just before it when it is shorter than the path |
| Paths.FileNameAfter | src/main/java/media/TV.java:58 | the name is exactly what follows the last separator |
| Paths.FileNameUnique | src/main/java/media/TV.java:58 | a suffix holding no separator, preceded by a separator or the whole path, is the name |
| Paths.FileNameLast | src/main/java/media/TV.java:58 | a path that does not end in a separator ends its name with its last character |
| Paths.ParentDirName | src/main/java/media/TV.java:158 | `getParentFile().getName()` exists exactly when the parent does; it holds no separator and is the whole element just before the last separator |
| Paths.Ancestors | src/main/java/yjohnson/Operations.java:59 | the path first, then each entry's parent in turn, ending at the first entry without a parent |
| Paths.Extension | src/main/java/media/Operations.java:40 | `substring(lastIndexOf('.'))`: none exactly when the name has no `.`; otherwise a suffix of the name that starts with `.` and holds no other `.` |
| Paths.ExtensionUnique | src/main/java/media/Operations.java:40 | a suffix starting with its only `.` is the extension |
| Paths.FileExtensionIs | src/main/java/media/Operations.java:40 | the extension computed character by character from the end of a path equals the extension of its `getName` |
| Paths.ExtensionOfDot | src/main/java/media/Operations.java:40 | a name ending in `.` has the extension `.` |
| Paths.ExtensionOfLast | src/main/java/media/Operations.java:40 | a character other than `.` appended to a name is appended to its extension, when it has one |
| Paths.Stem | src/main/java/media/TV.java:74 | `substring(0, lastIndexOf('.'))`: none exactly when there is no `.`; otherwise a proper prefix that, followed by the extension, is the name |
| Paths.CollapseKeepsSeparatorBefore | src/main/java/media/TV.java:376-386 | merging separators keeps a separator that has a name after it |
| Paths.NormalizedHasParent | src/main/java/media/TV.java:376-386 | a path with a separator before a name still has a parent after normalisation |
| Paths.SeparatorGivesParent | src/main/java/media/TV.java:376-386 | a path with a separator that has some character after it has a parent |
| Paths.JoinHasParent | src/main/java/media/TV.java:376-386 | joining a root with such a rest gives a path that has a parent |
| Paths.SeparatorAhead | src/main/java/media/TV.java:376-386 | text continued by a separator and a name character has a separator before a name |
| MetadataOps.SkipOptionalWhitespace | src/main/java/media/MetadataOps.java:23 | `\s?` consumes at most one character |
| MetadataOps.LabelAt | src/main/java/media/MetadataOps.java:23-25 | the resolution group matches at `q` exactly when the digits occur there, and is the digits with or without `p` |
| MetadataOps.ResolutionMatchAt | src/main/java/media/MetadataOps.java:23-25 | the optional `WxH` prefix never prevents a match where the digits occur; a match is the digits with or without `p` |
| MetadataOps.GetResolution | src/main/java/media/MetadataOps.java:40-56 | the result is one of `1080p`, `720p`, `480p` and `Unknown` |
| MetadataOps.FindResolutionLemma | src/main/java/media/MetadataOps.java:22-26 | a pattern finds a match exactly when its digits occur in the name |
| MetadataOps.LabelResultLemma | src/main/java/media/MetadataOps.java:47-50 | trimming the group and appending a missing `p` always gives the digits followed by `p` |
| MetadataOps.ResolutionFromLemma | src/main/java/media/MetadataOps.java:42-55 | the pattern loop returns the label of the first pattern, in declared order, whose digits occur in the name |
| MetadataOps.ResolutionStep | src/main/java/media/MetadataOps.java:42-52 | one resolution pattern yields its label with a single trailing `p` exactly when the name contains the label, and otherwise defers to the next pattern |
| MetadataOps.GetResolutionLemma | src/main/java/media/MetadataOps.java:40-56 | a name containing 1080 gives `1080p`; otherwise 720 gives `720p`; otherwise 480 gives `480p`; `Unknown` exactly when none occurs |
| MetadataOps.UnwantedSpacesRemoved | src/main/java/media/TV.java:209-214 | the result holds no `.` and no `_` |
| MetadataOps.SpaceOutLemma | src/main/java/media/TV.java:209-214 | replacing one character by a space removes it and introduces no other character |
| MetadataOps.UnwantedSpacesKeepsChars | src/main/java/media/TV.java:209-214 | every non-space character of the result was in the input |
| MetadataOps.NoUnwantedUnchanged | src/main/java/media/TV.java:209-214 | a name with no `.` and no `_` comes back unchanged |
| MetadataOps.RemoveUnwantedSpaces | src/main/java/media/TV.java:209-214 | the loop computes the specification, so the result holds no `.` and no `_` |
| MetadataOps.Scan | src/main/java/media/TV.java:187-199 | the scan records, for each bracket kind, a position holding that bracket (0 when there is none); when the leading bracket comes first, the trailing one is inside the string |
| MetadataOps.StripPair | src/main/java/media/TV.java:184-204 | when the loop for one bracket pair ends, no leading bracket is left |
| MetadataOps.StripPairKeepsChars | src/main/java/media/TV.java:184-204 | bracket removal introduces no character |
| MetadataOps.StripPairKeepsCharsCut | src/main/java/media/TV.java:200-203 | a pass that cuts a bracketed group out keeps every character of the final result inside the original name |
| MetadataOps.StripPairCut | src/main/java/media/TV.java:200-203 | one pass deletes every copy of the bracketed group and continues on the rest |
| MetadataOps.CutShortens | src/main/java/media/TV.java:202 | each removal strictly shortens the string |
| MetadataOps.StripPairStuck | src/main/java/media/TV.java:184-204 | a leading bracket with no later trailing bracket makes the loop spin forever |
| MetadataOps.ScanForPair | src/main/java/media/TV.java:185-199 | the nested index loop computes the scan |
| MetadataOps.StripPairLoop | src/main/java/media/TV.java:184-204 | the while loop for one pair computes the specification, or does not end |
| MetadataOps.RemoveBrackets | src/main/java/media/TV.java:178-207 | `removeBrackets` computes its specification over both pairs, and is None exactly when the Java loop never ends |
| MetadataOps.NoBracketsUnchanged | src/main/java/media/TV.java:178-207 | a string with no `[` and no `(` is returned unchanged |
| MetadataOps.BracketsRemovedLemma | src/main/java/media/TV.java:178-207 | a finished result holds no `[` and no `(`, and no character that was not in the input |
| MetadataOps.UnclosedBracketDiverges | src/main/java/media/TV.java:184-204 | `"[abc"` never finishes |
| MetadataOps.ScanStrayExample | src/main/java/media/TV.java:187-199 | because both indices start at 0, a `]` before any `[` is recorded first |
| MetadataOps.RemovePrefixExample | src/main/java/media/TV.java:202 | the stray group is the prefix up to that `]` |
| MetadataOps.RemoveGroupExample | src/main/java/media/TV.java:202 | a bracketed group is removed |
| MetadataOps.StrayTrailingBracketCutsPrefix | src/main/java/media/TV.java:178-207 | `"a]b[c]"` becomes `"b"`: the prefix before a stray `]` is deleted |
| TVPatterns.DigitRunEnd | src/main/java/media/TV.java:18-35 | the end of the digit run from `i`: all digits up to it, none at it |
| TVPatterns.SpaceRunEnd | src/main/java/media/TV.java:18-35 | the end of the space run from `i` |
| TVPatterns.NumberAt | src/main/java/media/TV.java:18-35 | a number group is a non-empty digit run whose value is the parsed number |
| TVPatterns.SkipDashSeparator | src/main/java/media/TV.java:18-23 | the optional separator stays inside the string |
| TVPatterns.CoreAt | src/main/java/media/TV.java:18-23 | a combined pattern's core match ends inside the string and binds the season, and the episode too except for the season-word form |
| TVPatterns.LeadInAt | src/main/java/media/TV.java:18-23 | the same for the core with its optional lead-in |
| TVPatterns.EpisodeWordAt | src/main/java/media/TV.java:27-31 | an episode word match is non-empty |
| TVPatterns.MatchAt | src/main/java/media/TV.java:18-35 | a match at `p` is non-empty and inside the string; the combined and solo-episode patterns bind an episode, the solo-season patterns a season |
| TVPatterns.Find | src/main/java/media/TV.java:82-83 | a match `find` reports lies inside the name and is a match of the pattern at that position |
| TVPatterns.FindLeftmost | src/main/java/media/TV.java:82-83 | `find` reports the leftmost match: the pattern matches at no earlier position, and when it reports nothing it matches nowhere |
| TVPatterns.LeadThenDigits | src/main/java/media/TV.java:261-265 | a template-regex hit is well formed and starts where the search started |
| TVPatterns.LetterNumberAt | src/main/java/media/TV.java:264 | the ` ?E(\d{1,3})+` hit is well formed and starts no earlier than the search |
| TVPatterns.LegacyMatchAt | src/main/java/media/TV.java:261-265 | each episode regex hit is well formed and starts no earlier than the search |
| TVPatterns.LegacyFind | src/main/java/media/TV.java:261-265 | a found episode regex hit is well formed |
| TV.RemoveMatchShortens | src/main/java/media/TV.java:80-142 | removing a non-empty match and trimming strictly shortens the working name |
| TV.SoloEpisodeFrom | src/main/java/media/TV.java:216-234 | a solo-episode hit leaves a strictly shorter name |
| TV.SoloSeasonFrom | src/main/java/media/TV.java:236-254 | a solo-season hit leaves a strictly shorter name |
| TV.MatchEpisodeOnly | src/main/java/media/TV.java:216-234 | sets the episode and returns the reduced name on a hit; returns the name unchanged and keeps the episode otherwise |
| TV.MatchSeasonOnly | src/main/java/media/TV.java:236-254 | sets the season and returns the reduced name on a hit; returns the name unchanged and keeps the season otherwise |
| TV.SeasonsFirstMatch | src/main/java/media/TV.java:334-351 | the first season `i` in [1,15), and for it the first template in listed order, that occurs wins, and every copy of that template is removed |
| TV.SeasonsNoMatch | src/main/java/media/TV.java:334-355 | when no template occurs, the name comes back unchanged and no season is set |
| TV.SeasonsResult | src/main/java/media/TV.java:334-355 | any season found is in [1,15), one of its templates occurs, and the result is the name with that template removed |
| TV.Seasons | src/main/java/media/TV.java:328-356 | the loop computes the specification: the season is set only on a hit, and it returns the reduced name |
| TV.FirstLegacy | src/main/java/media/TV.java:270-289 | the first legacy pattern, in declared order, whose `find` succeeds: no earlier one matches, and none when no pattern from there on matches |
| TV.LegacyRegexFirst | src/main/java/media/TV.java:270-289 | the legacy loop answers exactly when some pattern matches, and then with the first matching pattern's `num` value and the name before the first occurrence of its `seq` text |
| TV.TemplatesFrom | src/main/java/media/TV.java:292-312 | a template hit returns an episode in [i,300) and a prefix of the name |
| TV.TemplatesReach | src/main/java/media/TV.java:292-312 | searching from any template before the first one contained in the name gives the same answer as searching from that one |
| TV.TemplatesWrap | src/main/java/media/TV.java:292-312 | the same when the search goes on to the next number |
| TV.TemplatesSkip | src/main/java/media/TV.java:292-312 | the same when the search goes on to the next template of a number |
| TV.TemplatesNext | src/main/java/media/TV.java:302-311 | a template that is not contained passes the search to the next template, and after the sixth to the next number |
| TV.TemplateHit | src/main/java/media/TV.java:303-309 | a contained template answers with its number and the name before its first occurrence, ignoring case |
| TV.TemplatesFirstMatch | src/main/java/media/TV.java:292-312 | the first template in search order that the name contains, ignoring case, gives the episode number and the name before that template's first occurrence |
| TV.TemplatesNoMatch | src/main/java/media/TV.java:292-312 | when no template is contained, the template search answers nothing |
| TV.EpisodesLemma | src/main/java/media/TV.java:261-321 | the returned name is a prefix of the input; without a digit it is `(-1, name)`; when a legacy pattern matches, the first one decides the number and the name before its `seq` text; when neither a legacy pattern nor a template matches it is `(-1, name)` |
| TV.EpisodesByTemplate | src/main/java/media/TV.java:261-321 | when no legacy pattern matches, the first contained template decides the number and the name before it |
| TV.Episodes | src/main/java/media/TV.java:261-321 | the loops compute the specification for both the episode number and the returned name |
| TV.LegacySearch | src/main/java/media/TV.java:270-289 | the first of the three legacy patterns that matches sets the episode number and yields the name before its `seq` group; when none matches nothing changes |
| TV.TemplateSearch | src/main/java/media/TV.java:292-317 | the templates for 1 to 299 are tried in order ignoring case; the first contained one sets the episode number and yields the name before it |
| TV.ApplyCombined | src/main/java/media/TV.java:84-135 | one combined hit updates season, episode and series name as the specification step says |
| TV.MatchCombined | src/main/java/media/TV.java:80-142 | the combined patterns are tried in declared order, and parsing stops at the first that yields both season and episode |
| TV.ComboRound | src/main/java/media/TV.java:80-142 | one combined pattern: when it completes season and episode the search result is the new parse state; otherwise the search goes on from the next pattern with the updated fields |
| TV.ComboStepLemma | src/main/java/media/TV.java:84-135 | a combined hit keeps the working name, sets the episode from the hit, sets the season when the hit has one, and makes the trimmed name without group 0, strictly shorter, the series name |
| TV.FirstDecider | src/main/java/media/TV.java:80-142 | the first combined pattern, in declared order, that matches and completes the season: none before it does, and none when no pattern does |
| TV.ComboDecidesHere | src/main/java/media/TV.java:83-140 | a round whose match completes season and episode ends the loop with that match's fields |
| TV.NextRoundKeeps | src/main/java/media/TV.java:84-135 | a round that does not end the loop keeps the working name and the season |
| TV.ComboPassesOn | src/main/java/media/TV.java:83-140 | a round whose match leaves the season missing passes the loop on, with the episode found |
| TV.ComboSkips | src/main/java/media/TV.java:80-83 | a round without a match passes the loop on unchanged |
| TV.ComboFromDecides | src/main/java/media/TV.java:80-142 | the combined loop from any round stops exactly when a later pattern decides, and then with what the first deciding pattern gives; otherwise it keeps the name and the season, and has an episode exactly when one was found or some pattern matched |
| TV.ComboFirstDecides | src/main/java/media/TV.java:80-142 | the same from the first round: the first deciding pattern fixes season, episode and series name |
| TV.MatchSoloEpisode | src/main/java/media/TV.java:144-150 | a missing episode is taken from the first solo episode pattern that matches, which also shortens the name; otherwise nothing changes |
| TV.MatchSoloSeason | src/main/java/media/TV.java:152-171 | a missing season is taken from the name, or else from the cleaned parent directory name with the file name kept; it fails exactly when the parent directory is needed and absent |
| TV.LegacyParse | src/main/java/media/TV.java:172-174 | the legacy fallback sets the season from the season search (kept when it finds none), the episode from the episode search on what is left, and the series name to the trimmed rest |
| TV.MatchRemaining | src/main/java/media/TV.java:143-175 | the solo patterns, the parent directory lookup and the legacy search, as specified; it fails exactly when the parent directory is needed and missing |
| TV.AfterComboThrows | src/main/java/media/TV.java:143-171 | after the combined loop, parsing throws exactly when no season is known, the solo season patterns find none in the name, and there is no parent directory |
| TV.ParseTVInfo | src/main/java/media/TV.java:71-176 | `parseTVInfo` sets season, episode and series name as the specification function computes them, and fails exactly where the Java code throws |
| TV.ParseWorkingName | src/main/java/media/TV.java:80-175 | parsing the working name sets the fields as the specification says, and fails exactly where it throws |
| TV.ParseNameDecided | src/main/java/media/TV.java:80-142 | when a combined pattern decides, the result is its season, its episode and the trimmed name without its match |
| TV.ParseNameThrows | src/main/java/media/TV.java:80-171 | parsing throws exactly when no combined pattern decides, the solo season patterns find no season, and there is no parent directory |
| TV.ParseTVInfoOutcome | src/main/java/media/TV.java:71-176 | a name without a `.` throws; otherwise the first deciding combined pattern fixes the result, parsing throws exactly when nothing gives a season and there is no parent directory, and a file with a parent directory always parses |
| TV.CustomNameReadsBack | src/main/java/media/TV.java:64-68 | the custom name is the trimmed series name, " - S", the season, "E", the episode, each at least two digits and reading back as the number; it ends in "Special" exactly when the episode is negative |
| TV.ExtractTitleInfo | src/main/java/media/TV.java:56-69 | stores the resolution, the parsed fields, the bracket-cleaned series name and the custom name, or reports the failure |
| TV.ParseAndName | src/main/java/media/TV.java:60-68 | on the parsed fields: Throws when the parse throws, Hangs when the bracket clean-up never ends, otherwise the cleaned series name and the custom name built from them |
| TV.CleanAndName | src/main/java/media/TV.java:62-68 | bracket clean-up and the custom name, or `Hangs` when the clean-up never ends |
| TV.TitleFromLemma | src/main/java/media/TV.java:56-69 | the title fails exactly when the parse throws (Throws) or the bracket clean-up never ends (Hangs); otherwise it keeps the resolution, season and episode, cleans the series name of `[` and `(` without new characters, and builds the custom name from the result |
| TV.NewTV | src/main/java/media/TV.java:46-50 | a fresh TV media object for the path, with its title information parsed |
| TV.GenerateCustomPathStructure | src/main/java/media/TV.java:375-386 | the TV destination `root/series/Season n/custom name + extension` always has a parent directory |
| TV.CustomPath | src/main/java/media/TV.java:375-386 | the same destination for a given file, always with a parent directory |
| TV.ValidWhenNamed | src/main/java/media/TV.java:408-411 | once the custom name is built, `isValid` holds exactly when the file is a regular file and the series name is non-empty |
| TV.ExampleNoMatch | src/main/java/media/TV.java:19 | the first combined pattern does not match `Show - S01E02` before position 4 |
| TV.ExampleMatch | src/main/java/media/TV.java:19 | it matches at position 4, up to 13, with season 1 and episode 2 |
| TV.ExampleFind | src/main/java/media/TV.java:83 | so `find` reports that match |
| TV.ExampleSeriesName | src/main/java/media/TV.java:126-127 | removing the match and trimming leaves `Show` |
| TV.ExampleFileNameIs | src/main/java/media/TV.java:74 | the name of `/tv/Show - S01E02.mkv` is `Show - S01E02.mkv` |
| TV.ExampleLastSeparator | src/main/java/media/TV.java:74 | its last separator is at position 3 |
| TV.ExampleStem | src/main/java/media/TV.java:74 | its stem is `Show - S01E02` |
| TV.ExampleSpaces | src/main/java/media/TV.java:74 | which has no `.` or `_` to space out |
| TV.DecidedAtStart | src/main/java/media/TV.java:80-142 | a first combined match at 4..13 with season 1 and episode 2 decides the parse, giving series `Show` |
| TV.ExampleParseName | src/main/java/media/TV.java:80-142 | so `Show - S01E02` parses to season 1, episode 2, series `Show` |
| TV.ParseExample | src/main/java/media/TV.java:71-176 | parsing the file `/tv/Show - S01E02.mkv` gives season 1, episode 2, series `Show` |
| Movie.SmallNumeral | src/main/java/media/Movie.java:16-18 | fewer than three digits read as less than 100 |
| Movie.FourDigits | src/main/java/media/Movie.java:17-18 | the value of a four-digit numeral, digit by digit |
| Movie.YearDigitsOf | src/main/java/media/Movie.java:16-18 | the second and third digits of a four-digit year |
| Movie.YearPatternLemma | src/main/java/media/Movie.java:16-18 | the year regex accepts a four-digit token exactly when it is 18xx/19xx, or 2xyz with x and y bounded by the current year's digits |
| Movie.YearAt | src/main/java/media/Movie.java:16-18 | a year match at `p` is a word-bounded four-digit token that the pattern accepts |
| Movie.YearAtComplete | src/main/java/media/Movie.java:16-18 | every such token is matched where it stands |
| Movie.FindYear | src/main/java/media/Movie.java:82-83 | a year found is matched at some position; none means no position matches |
| Movie.FindYearLeftmost | src/main/java/media/Movie.java:82-83 | the year found is the leftmost match, and none is found exactly when no position matches |
| Movie.ReleaseYearOf | src/main/java/media/Movie.java:78-102 | the release year is -1 or at least 1800 |
| Movie.ReleaseYearSources | src/main/java/media/Movie.java:78-102 | parsing fails exactly when the file name has no year and there is no parent directory; the year is -1 exactly when neither the file name nor the parent directory name has one; otherwise it is the leftmost year of the file name, or else of the parent directory name |
| Movie.CleanTitle | src/main/java/media/Movie.java:46-59 | a cleaned title holds no `.`, `_`, `[` or `(` |
| Movie.MovieNamesLemma | src/main/java/media/Movie.java:45-63 | with an unknown year the custom name equals the movie name; with a known year (at least 1800) it is the movie name plus " (year)"; the name is cleaned |
| Movie.TitleFromYearNames | src/main/java/media/Movie.java:45-63 | the movie name has no `.`, `_`, `[` or `(`; resolution and year are the ones given; the custom name equals the movie name exactly for the unknown year, and otherwise is the movie name plus " (year)" |
| Movie.YearInNameDoesNotThrow | src/main/java/media/Movie.java:54-73 | a year found in the file name is the release year and is found again by `lastIndexOf`; parsing can then throw only for a name without a `.` |
| Movie.YearSpelledOut | src/main/java/media/Movie.java:54-59 | a year found in the name is spelled out in it, so `lastIndexOf` finds it |
| Movie.FoundYearThrowsOnlyWithoutStem | src/main/java/media/Movie.java:54-73 | with a year that `lastIndexOf` finds, naming throws only for a name without a `.` |
| Movie.ParentOnlyYearThrows | src/main/java/media/Movie.java:59 | a year found only in the parent directory, and absent from the file name, makes `substring(0, -1)` throw |
| Movie.ParseReleaseYear | src/main/java/media/Movie.java:78-102 | the year from the file name, else from the parent directory, else -1; fails when there is no parent |
| Movie.CleanTitleOf | src/main/java/media/Movie.java:46-59 | the cleaning chain computes the clean title |
| Movie.NamesFromYear | src/main/java/media/Movie.java:45-73 | sets the movie and custom names from the year as specified, or reports the failure |
| Movie.YearAndNames | src/main/java/media/Movie.java:45-73 | stores the parsed year, then the names as specified, or reports the failure |
| Movie.ExtractTitleInfo | src/main/java/media/Movie.java:39-76 | stores the resolution, year and names as specified, or reports the failure, including the throw of the closing trace on a name without a `.` |
| Movie.NewMovie | src/main/java/media/Movie.java:29-33 | a fresh movie media object for the path, with its title information parsed |
| Movie.GenerateCustomPathStructure | src/main/java/media/Movie.java:121-129 | the movie destination `root/title/custom name + extension` has a parent directory whenever the file has an extension |
| Movie.CustomPath | src/main/java/media/Movie.java:121-129 | the same destination for a given file, with the same guarantee |
| Movie.ValidWhenNamed | src/main/java/media/Movie.java:147-150 | once the custom name is built, `isValid` holds exactly when the file is a regular file and the movie name is non-empty |
| Media.Media.constructor | src/main/java/media/Media.java:16-19 | stores the path and the type; the resolution starts as `Unknown`, the season as 1 |
| Media.Media.SetFile | src/main/java/media/Media.java:25-27 | replaces the file and changes no other field |
| Media.ExtOf | src/main/java/media/Operations.java:40 | the extension is empty exactly when the name has no `.`; otherwise it starts with `.` and ends the name |
| MediaQueue.Instantiate | src/main/java/media/MediaType.java:12-30 | builds a TV or a movie object for the path according to the type |
| MediaQueue.IsValid | src/main/java/media/Media.java:41 | `isValid` dispatched on the media type, as `TV.ValidWhenNamed` and `Movie.ValidWhenNamed` characterise it |
| MediaQueue.VotesAppend | src/main/java/media/MediaQueue.java:206-222 | the votes of an extended list are the old votes plus the new item's vote |
| MediaQueue.TallyCounts | src/main/java/media/MediaQueue.java:206-222 | a title is tallied exactly when some valid item carries it, with a count equal to the number of valid items carrying it |
| MediaQueue.OrderingExists | src/main/java/media/MediaQueue.java:177-183 | every key set has an iteration order |
| MediaQueue.ChooseName | src/main/java/media/MediaQueue.java:177-183 | the chosen name's count is at least every key's count; every key before it in iteration order has a strictly smaller count; none exactly when there are no keys |
| MediaQueue.MediaList.constructor | src/main/java/media/MediaQueue.java:153-157 | an empty, unnamed list for the directory and extension |
| MediaQueue.MediaList.AddFileToList | src/main/java/media/MediaQueue.java:188-197 | on success the list gains exactly one new media object for the file, at its end |
| MediaQueue.MediaList.SetName | src/main/java/media/MediaQueue.java:181 | sets the list's name |
| MediaQueue.MajorityLemma | src/main/java/media/MediaQueue.java:177-183 | a choice with a maximal count names the list by majority |
| MediaQueue.NameByMajority | src/main/java/media/MediaQueue.java:177-183 | the name picked from the tally of the items is a majority title among the valid items, and none when no item is valid |
| MediaQueue.AddAndTally | src/main/java/media/MediaQueue.java:171-176 | adding a file keeps the running tally equal to the tally of the list |
| MediaQueue.AddFoundFiles | src/main/java/media/MediaQueue.java:168-176 | one media object per found file, in order, and the tally of the whole list |
| MediaQueue.SingleFileList | src/main/java/media/MediaQueue.java:158-167 | a single file gives a one-item list named after that item's title |
| MediaQueue.DirectoryList | src/main/java/media/MediaQueue.java:168-185 | a directory gives one item per found file, named by majority |
| MediaQueue.NewMediaList | src/main/java/media/MediaQueue.java:153-186 | a path that is neither a file nor a directory is rejected with NoSuchFile; otherwise the file or directory list as above |
| MediaQueue.VotesIndex | src/main/java/media/MediaQueue.java:206-222 | vote `j` is item `j`'s vote |
| MediaQueue.VotesLength | src/main/java/media/MediaQueue.java:206-222 | one vote per item |
| MediaQueue.VotesValid | src/main/java/media/MediaQueue.java:206-222 | a title is voted only by a valid item |
| MediaQueue.MediaQueue.constructor | src/main/java/media/MediaQueue.java:16 | the queue starts empty |
| MediaQueue.MediaQueue.AddMediaListToQueue | src/main/java/media/MediaQueue.java:70-83 | only a non-empty list is appended, and the total size grows by its size |
| MediaQueue.MediaQueue.Size | src/main/java/media/MediaQueue.java:127-133 | the size is the sum of the list sizes |
| MediaQueue.AddListPerFile | src/main/java/media/MediaQueue.java:47-52 | for movies, one single-file list per found file, in order |
| MediaQueue.AddFileList | src/main/java/media/MediaQueue.java:48-50 | one found file becomes a one-item list, named by its file, appended to the queue; a media object that cannot be built leaves the queue as it was |
| MediaQueue.NewMediaQueue | src/main/java/media/MediaQueue.java:29-68 | a missing source is rejected before the extension; an extension not starting with `.` is rejected; movies give one list per file, TV one list for the directory; only non-empty lists are queued |
| FileSystem.FileSystem.constructor | src/main/java/yjohnson/Operations.java:59-62 | a file system whose files and directories are disjoint |
| FileSystem.FileSystem.CreateDirectories | src/main/java/yjohnson/Operations.java:59 | on success the path and all its ancestors are directories and nothing else is added; a regular file at the path gives `FileAlreadyExistsException` and a regular file at an ancestor a plain I/O failure, both creating nothing; any other failure keeps whatever it created, only among the path and its ancestors |
| FileSystem.FileSystem.Move | src/main/java/yjohnson/Operations.java:62 | moves the bytes unchanged from source to target, or fails leaving the files unchanged; a missing source or parent directory fails; a file moved onto itself stays as it is |
| FileSystem.FileSystem.Copy | src/main/java/yjohnson/Operations.java:227 | adds the target, with no `REPLACE_EXISTING`, or fails leaving the files unchanged; the bytes written are not trusted; a file copied onto itself succeeds and stays as it is |
| FileSystem.FileSystem.Delete | src/main/java/yjohnson/Operations.java:242 | removes the file, or fails leaving the files unchanged |
| Checksum.HexDigit | src/main/java/yjohnson/Checksum.java:27 | a lowercase hexadecimal digit |
| Checksum.HexValue | src/main/java/yjohnson/Checksum.java:27 | reading a hex digit back |
| Checksum.HexValueOfDigit | src/main/java/yjohnson/Checksum.java:27 | each hex digit reads back as its value |
| Checksum.HexByte | src/main/java/yjohnson/Checksum.java:27 | `Integer.toString((b & 0xff) + 0x100, 16).substring(1)` is two lowercase digits, high nibble first |
| Checksum.HexEncode | src/main/java/yjohnson/Checksum.java:24-30 | the encoding is twice as long as the digest |
| Checksum.ByteDigits | src/main/java/yjohnson/Checksum.java:27 | the two digits of a byte read back as the byte |
| Checksum.HexRoundTrip | src/main/java/yjohnson/Checksum.java:24-30 | decoding the hex string recovers the digest |
| Checksum.DecodeStep | src/main/java/yjohnson/Checksum.java:24-30 | two more characters that read back as a byte's high and low halves decode to that byte appended |
| Checksum.HexInjective | src/main/java/yjohnson/Checksum.java:24-30 | equal hex strings come from equal digests |
| Checksum.FileInputStream.constructor | src/main/java/yjohnson/Checksum.java:36 | a stream at the start of the file's content |
| Checksum.FileInputStream.Read | src/main/java/yjohnson/Checksum.java:54 | returns -1 exactly at the end; otherwise it fills 1 to `buffer.Length` bytes with the next bytes of the content |
| Checksum.MessageDigest.constructor | src/main/java/yjohnson/Checksum.java:41 | a digest fed nothing yet |
| Checksum.MessageDigest.Update | src/main/java/yjohnson/Checksum.java:57 | feeds exactly the bytes `buffer[off..off+len]` |
| Checksum.MessageDigest.Digest | src/main/java/yjohnson/Checksum.java:63 | the digest of everything fed |
| Checksum.CreateChecksum | src/main/java/yjohnson/Checksum.java:33-64 | the digest of the whole file, fed in non-empty chunks of at most 1024 bytes whose concatenation is the content; a missing file fails |
| Checksum.ReadAndUpdate | src/main/java/yjohnson/Checksum.java:53-59 | one read and update keeps the digest equal to the bytes read so far, in chunks of at most 1024 bytes; at end of stream it returns -1 and otherwise moves forward |
| Checksum.GetChecksum | src/main/java/yjohnson/Checksum.java:20-31 | the hex string of the file's digest |
| Checksum.SameChecksum | src/main/java/yjohnson/Checksum.java:20-31 | equal checksum strings mean both files exist and have equal digests |
| FileOperation.Values | src/main/java/yjohnson/FileOperation.java:5 | the two distinct constants, every constant listed |
| FileOperation.Label | src/main/java/yjohnson/FileOperation.java:12 | the label has the name's length and no `_` |
| FileOperation.LabelInjective | src/main/java/yjohnson/FileOperation.java:12 | distinct constants have distinct labels |
| FileOperation.ToStringArray | src/main/java/yjohnson/FileOperation.java:7-15 | a fresh array with one entry per constant, entry `i` being the label of constant `i` |
| Relocation.DestinationHasParent | src/main/java/yjohnson/Operations.java:47-59 | a TV destination, and a movie destination whose file has an extension, always has a parent directory |
| Relocation.MediaIOWrapper.constructor | src/main/java/yjohnson/Operations.java:281-300 | records the source's checksum when the source exists, none otherwise; no success yet |
| Relocation.MediaIOWrapper.ValidateChecksum | src/main/java/yjohnson/Operations.java:302-325 | true exactly when both files exist and the recorded checksum equals the target's |
| Relocation.MediaIOWrapper.SetOperationSuccess | src/main/java/yjohnson/Operations.java:331-333 | sets the success flag |
| Relocation.ValidatedDigest | src/main/java/yjohnson/Operations.java:310-312 | equal checksum strings mean equal digests |
| Relocation.RemoveSourceFilePostMove | src/main/java/yjohnson/Operations.java:239-272 | deletes the source or nothing; success is set only when the source is confirmed gone |
| Relocation.CopyMedia | src/main/java/yjohnson/Operations.java:209-237 | on true, the target exists, its checksum equals the source's recorded checksum, and the media points at the target; on false the media is unchanged; at most the target is added; directories are only added, and only those above the target |
| Relocation.SafeNonAtomicMoveAsWritten | src/main/java/yjohnson/Operations.java:151-171 | as written, on a source that is its own target and whose checksum was taken: either nothing changes, or the only copy is deleted while the item is flagged a success and the media points at the target; directories are only added, and only those above the target |
| Relocation.SameFileDeleteLoses | src/main/java/yjohnson/Operations.java:239-249 | that delete leaves no file with the source's bytes, so the relocation is not safe |
| Relocation.SafeNonAtomicMove | src/main/java/yjohnson/Operations.java:151-197 | with the same-file case left alone: returns the target or the empty path, and a returned target exists; a source that is its own target changes nothing and is returned when it exists; a source that went away has its target holding bytes whose checksum is the one taken from the source, and the media points at the new path; no other file changes; success exactly when the source was confirmed gone; directories are only added, and only those above the target |
| Relocation.Fallback | src/main/java/yjohnson/Operations.java:78-84 | the copy fallback, once the checksum was taken from the source: a source that went away has a target with the source's digest and the media points at the target; a source that is its own target changes nothing; no other file changes; success exactly when the source was confirmed gone; directories are only added, and only those above the target |
| Relocation.StandardMove | src/main/java/yjohnson/Operations.java:49-96 | one item of the atomic runner: a source that went away has its digest at the target, and no other file changes; a source that is its own target stays as it is; success means the target exists and the media points at it, and for distinct paths success holds exactly when the source went away; directories are only added, only those above the target, and after a success all of them exist |
| Relocation.NonAtomicMove | src/main/java/yjohnson/Operations.java:115-143 | one item of the non-atomic runner: the same safety and frame; a success leaves the media at the target; a source that went away always counts as a success, and a copy that failed validation may count too; directories are only added, only those above the target, and after a success all of them exist |
| Relocation.Relocate | src/main/java/yjohnson/Operations.java:59-128 | the chosen runner's item step: the item is a `Step` of that runner between the states before and after it, and the media ends at its source, or at its target on a success; directories are only added, only those above the target, and after a success all of them exist |
| Relocation.RelocateItem | src/main/java/yjohnson/Operations.java:43-59 | aborts exactly when the destination computed from the media has no parent, and then changes no file, no directory and not the media; otherwise the item is a `Step` with the file and destination it had, and the media ends at its source, or at the destination on a success; directories are only added, only those above the destination, and after a success all of them exist |
| Relocation.ReachedAppend | src/main/java/yjohnson/Operations.java:41-43 | safe runs concatenate |
| Relocation.TraceAppend | src/main/java/yjohnson/Operations.java:41-43 | the state traces of consecutive parts of a run join into the trace of the whole run |
| Relocation.WithFile | src/main/java/yjohnson/Operations.java:67 | the items' files after one media object's file changed: that object's entries hold the new file, every other entry is unchanged |
| Relocation.RecordedAppend | src/main/java/yjohnson/Operations.java:41-43 | the record of the next item joins the records of the items before it |
| Relocation.PendingAdvance | src/main/java/yjohnson/Operations.java:41-43 | the items after the next one still hold the files they had before the run |
| Relocation.AimedAtStart | src/main/java/yjohnson/Operations.java:47 | before a run, every item's destination is the one its current file gives |
| Relocation.RunNext | src/main/java/yjohnson/Operations.java:43-96 | one item inside a run: the record names the item and, when no object is queued twice, the file it had before the run and the destination computed from it; the media ends where the record says; aborts exactly when that destination has no parent; the directories change by a `DirStep`: only those above the destination are added, and all of them exist after a success |
| Relocation.RunStep | src/main/java/yjohnson/Operations.java:43-96 | one more record: every item reached is recorded, the rest are still pending, and the state trace grows by the item's `Step`; the directory trace grows with the state trace, one `DirStep` per record |
| Relocation.RunList | src/main/java/yjohnson/Operations.java:43-98 | the records of one list extend the run's records, one per item reached and all of them unless the run aborts, keeping the items recorded, the unreached items pending and the state trace; the directory trace grows with the state trace, one `DirStep` per record |
| Relocation.RunPart | src/main/java/yjohnson/Operations.java:41-99 | the list at queue position `i`, as its slice of the queue's items in order; the directory trace grows with the state trace, one `DirStep` per record |
| Relocation.RunLists | src/main/java/yjohnson/Operations.java:41-100 | the loop over the lists: one record per item reached, in order, with the trace from the starting state and every item recorded or pending; a directory trace from the starting set of directories to the final one, one `DirStep` per record |
| Relocation.RunQueue | src/main/java/yjohnson/Operations.java:37-102 | one record per item reached, in queue order, all of them unless the run aborts; only a destination without a parent aborts, as the last record; each record is a `Step` between consecutive states from the starting to the final file system; when no media object is queued twice, each record has that item's original file and destination, the item's file is where the record says, and the unreached items still hold their original files; no directory is removed, every new one lies above the destination of an item reached, and every item counted a success has all the directories above its destination |
| Relocation.DirsOfIncludes | src/main/java/yjohnson/Operations.java:59 | the directories above each record's destination are among the run's directories |
| Relocation.DirsOfWitness | src/main/java/yjohnson/Operations.java:59 | every one of the run's directories lies above the destination of some record |
| Relocation.DirsMadeAppend | src/main/java/yjohnson/Operations.java:43-98 | one more item that adds directories above its own destination only, and all of them on a success, keeps `DirsMade` |
| Relocation.DirTraceAppend | src/main/java/yjohnson/Operations.java:43-98 | a directory trace followed by one more item's `DirStep` is the directory trace of the longer run |
| Relocation.DirTraceMade | src/main/java/yjohnson/Operations.java:41-100 | the per-item directory steps of a run add up to `DirsMade` between its first and last sets: nothing removed, every new directory above a reached item's destination, every success's directories present |
| Relocation.ListMediaQueued | src/main/java/yjohnson/Operations.java:41-43 | a list's media objects belong to the queue |
| Relocation.FlattenSlice | src/main/java/media/MediaQueue.java:127-133 | list `i` is the slice of the queue's items that follows the lists before it |
| Relocation.FlattenPrefix | src/main/java/media/MediaQueue.java:127-133 | the items of the first lists are a prefix of the queue's items |
| Relocation.ItemsSize | src/main/java/media/MediaQueue.java:127-133 | the queue has as many items as its size |
| Relocation.ExecuteFileOperation | src/main/java/yjohnson/Operations.java:26-36 | `MOVE_FILE_ATOMICALLY` runs the atomic runner and `COPY_FILE_AND_DELETE_SRC` the non-atomic one, with the guarantee of `RunQueue` for that runner; the directories as for `RunQueue` |
| OrganizedMove.OrganizedTargetShape | src/main/java/media/Operations.java:26-59 | the target is missing exactly when the file name has no `.`; otherwise it has a parent |
| OrganizedMove.OrganizedRestHasName | src/main/java/media/Operations.java:29-55 | both layouts put a separator before a name |
| OrganizedMove.TVTargetsAgree | src/main/java/media/Operations.java:29-43 | for TV, the organised target equals the path `generateCustomPathStructure` builds |
| OrganizedMove.TVTargetIsCustomPath | src/main/java/media/Operations.java:29-43 | for TV, the organised target of a file with an extension is the path `generateCustomPathStructure` builds for that file |
| OrganizedMove.MoveMedia | src/main/java/media/Operations.java:69-102 | on success the bytes move unchanged and the media points at the target; on failure neither files nor media change; directories are only added, only those above the target, and after a success all of them exist |
| OrganizedMove.MoveStepKeeps | src/main/java/media/Operations.java:69-81 | an item keeps the bytes it moves: a source that went away has its bytes, unchanged, at the target, and no other file changes |
| OrganizedMove.MovedAllAppend | src/main/java/media/Operations.java:22-64 | intact runs concatenate |
| OrganizedMove.MoveTraceAppend | src/main/java/media/Operations.java:20-65 | the state traces of consecutive parts of a run join into the trace of the whole run |
| OrganizedMove.OrganizedAppend | src/main/java/media/Operations.java:20-65 | the record of the next item joins the records of the items before it |
| OrganizedMove.TargetDirsOfIncludes | src/main/java/media/Operations.java:73 | the directories above each record's target are among the run's directories |
| OrganizedMove.TargetDirsOfWitness | src/main/java/media/Operations.java:73 | every one of the run's directories lies above the target of some record |
| OrganizedMove.DirsMovedAppend | src/main/java/media/Operations.java:20-65 | one more item that adds directories above its own target only, and all of them after a completed move, keeps `DirsMoved` |
| OrganizedMove.DirTraceAppend | src/main/java/media/Operations.java:20-65 | a directory trace followed by one more item's `DirStep` is the directory trace of the longer run |
| OrganizedMove.DirTraceMoved | src/main/java/media/Operations.java:20-65 | the per-item directory steps of a run add up to `DirsMoved` between its first and last sets: nothing removed, every new directory above a reached item's target, every completed move's directories present |
| OrganizedMove.TargetedAtStart | src/main/java/media/Operations.java:26-56 | before a run, every item's target is the one its current file gives |
| OrganizedMove.NextTarget | src/main/java/media/Operations.java:22-56 | when no object is queued twice, the next item still has its original file and target |
| OrganizedMove.OrganizeItem | src/main/java/media/Operations.java:22-61 | aborts exactly when there is no target, creating no directory; the record names the media, its file and its target; the files change as `MoveStep` says (the bytes moved unchanged, or nothing) and the media ends where the record says; otherwise directories are only added, only those above the target, and after a completed move all of them exist |
| OrganizedMove.OrganizeNext | src/main/java/media/Operations.java:22-61 | one item inside a run: the record names the item and, when no object is queued twice, its original file and target; the media ends where the record says; the directories change by a `DirStep`: only those above the target are added, and all of them exist after a completed move |
| OrganizedMove.OrganizeStep | src/main/java/media/Operations.java:22-61 | one more record: every item reached is recorded, the rest are still pending, and the state trace grows by the item's `MoveStep`; the directory trace grows with the state trace, one `DirStep` per record |
| OrganizedMove.OrganizeList | src/main/java/media/Operations.java:20-64 | the records of one list extend the run's records, one per item reached and all of them unless the run aborts, keeping the items recorded, the unreached items pending and the state trace; the directory trace grows with the state trace, one `DirStep` per record |
| OrganizedMove.OrganizePart | src/main/java/media/Operations.java:20-64 | the list at queue position `i`, as its slice of the queue's items in order; the directory trace grows with the state trace, one `DirStep` per record |
| OrganizedMove.OrganizeLists | src/main/java/media/Operations.java:20-65 | the loop over the lists: one record per item reached, in order, with the trace from the starting state and every item recorded or pending; a directory trace from the starting set of directories to the final one, one `DirStep` per record |
| OrganizedMove.OrganizedMove | src/main/java/media/Operations.java:18-67 | one record per item reached, in queue order, all of them unless the run aborts; only a file name without an extension aborts, as the last record; each record's move takes the source's bytes unchanged to its target, or changes nothing, between consecutive states from the starting to the final file system; when no media object is queued twice, each record has that item's original file and target, the item's file is where the record says, and the unreached items still hold their original files; no directory is removed, every new one lies above the target of an item reached, and every completed item has all the directories above its target |

## Notes on the source

Where the code and its design description differ, the model follows the code:

- **Year range.** The movie year is accepted by a per-digit pattern, `1[89]xx` or `2` followed by two digits bounded by the current year's second and third digits. It is not a numeric range from 1800 to next year.
- **Unmatched brackets.** `removeBrackets` never ends on a leading bracket with no later trailing bracket (`MetadataOps.UnclosedBracketDiverges`). A `]` before any `[` deletes the prefix up to it (`MetadataOps.StrayTrailingBracketCutsPrefix`).
- **Season templates.** `seasons` tries its templates in the order the code lists them.
- **Movie layout.** `media/Operations.java` files a movie flat under the target. `Movie.generateCustomPathStructure` nests it under a directory named after the movie.
- **Same-file copy.** When an item already sits at its destination, the non-atomic runner's `Files.copy` finds the same file and copies nothing, validation compares the file with itself, and the delete that follows removes the only copy; the runner then reports the item as not fully successful, since the returned path no longer exists (see Findings). The model's runners use the corrected `Relocation.SafeNonAtomicMove`, which leaves such a file alone.
- **Failed validation counts as success.** The non-atomic runner counts an item as relocated whenever `safeNonAtomicMove` returns a path that exists. A copy whose checksum does not validate still counts: the media then points at the copy and the source is kept. The model reproduces this: `Relocation.NonAtomicMove` promises that a source that went away counts as a success, not the converse.
- **Extension-less names.** In `organizedMove`, a file name without a `.` makes `substring(lastIndexOf('.'))` throw, which ends the whole run.
- **Aborted runs.** The relocation runners abort only when a destination has no parent. By `Relocation.DestinationHasParent` that cannot happen for TV, or for a movie whose file has an extension.

## Findings

| source | as written | input that shows it | evidently intended | confidence | as-written member | corrected member |
|---|---|---|---|---|---|---|
| src/main/java/yjohnson/Operations.java:161-169 | `safeNonAtomicMove` copies, validates, then deletes the source. When the source already is its destination, `Files.copy` finds the same file and copies nothing, the checksum compares the file with itself, and `Files.delete` removes the only copy. `safeNonAtomicMove` flags the wrapper a success and points the media at the deleted path; the runner then resets the flag from `tmp.exists()`, which is now false, and reports the item as not fully successful, with the file lost | `COPY_FILE_AND_DELETE_SRC` over a library that is already organised, so that an item's destination is its own file | a source that already is its destination is left where it is | not executed | Relocation.SafeNonAtomicMoveAsWritten (with Relocation.SameFileDeleteLoses) | Relocation.SafeNonAtomicMove |

## Left out

- Logging, `printStackTrace`, the console and CLI, HandBrake, subtitles and history files are outside the core.
- `Calendar` becomes the `currentYear` parameter. `PathFinder.findFiles` becomes the sequence of found files. The `isFile` and `isDirectory` answers are given as sets.
- MD5 itself is not modelled. It is the function parameter `hash`, so every property holds for any digest function.
- `HashMap` iteration order is unspecified in Java. `MediaQueue.ChooseName` picks an order nondeterministically and proves its result for whichever order it picks.
- `Integer.parseInt` overflow on long digit runs is not modelled: numbers are unbounded naturals, and the model parses the number and keeps the file. The combined and solo TV patterns read digit runs of any length (`0*([1-9][0-9]*|0)`), so in Java a run beyond `int` range makes `parseInt` throw a `NumberFormatException`. `addFileToList` catches it as an `IllegalArgumentException` and adds nothing (MediaQueue.java:188-196). The caller reads `getLast()` of the list all the same (MediaQueue.java:162, :174-175). For the first file the list is empty, so `getLast()` throws a `NoSuchElementException` that the `MediaQueue` constructor does not catch (it catches only `NoSuchFileException`, :61), and no queue is built. For a later file the previous item is tallied a second time, which can change the majority name. The legacy `num` group reads at most three digits and cannot overflow.
- Only ASCII case folding is modelled.
- TVPatterns.MatchAt: a `TrailingEpisode` match must end at the end of the name. Java's `$` also matches before a final line terminator, so a file name that ends in `\n` or `\r\n` can match in Java and not in the model.
- `toAbsolutePath` is not modelled: paths are taken as given, and the roots are assumed absolute.
- File-system faults are nondeterministic failures. No distinction is made between I/O error classes beyond what the code branches on (missing file, existing file, atomic move unsupported). `canRead`, security exceptions and read failures of an existing file are not modelled.
- The `UnsupportedOperationException` for a media type other than TV or MOVIE is left out: the two-constructor datatype has no other case.
- The trivial getters of `TV` and `Movie` are not modelled separately: the model reads the fields directly.
- Movie.YearAt: the word boundary `\b` around the year counts only ASCII letters, digits and `_` as word characters. Java's `\b` also counts other Unicode letters and digits in some JDK versions, so a year glued to such a letter can match in Java and not in the model.
- Relocation.RunQueue: each record is tied to its item's original file and destination, and the item's file now to the record, only when no media object is queued twice. A media object queued twice is moved twice, and its second record starts from wherever the first left it.
- Relocation.ExecuteFileOperation: the same condition as `Relocation.RunQueue`.
- OrganizedMove.OrganizedMove: the same condition for the organised targets.
- The records and the file-system states the runners return are ghost: they describe a run and are not built by the Java code.
- The file system may hold bytes at the target that a concurrent writer changes; concurrency is not modelled.
- TV.ParseExample: the worked parse is proved for one `<title> - S<dd>E<dd>.<ext>` name, not for every title of that form. The general outcome of a parse is stated by `TV.ParseTVInfoOutcome` and `TV.ComboFirstDecides` in terms of the first combined pattern that decides.
