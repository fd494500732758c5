# apa-stat-scraper, modelled in Dafny

apa-stat-scraper reads statistics from the American Poolplayers Association
league site. It takes a player's page or a team's page, turns the table cells
it finds into team and player records, filters out navigation noise, merges
what successive scrolls of the page reveal, classifies teams as current or
past, and aggregates a player's team history into a minimum and maximum
skill level and a count of seasons played. Around that sit a configuration
store with dotted paths, a parser for log-file size settings, and a file
cache of extraction results with a timeout.

This project models that logic in Dafny and proves what it promises. The
browser is replaced by its observations. A table becomes a sequence of rows
of cell texts. A page being scrolled becomes a sequence of frames, each with
the rows a scan sees and whether the page is at its bottom or the scroll
raises. A history extraction attempt is a datatype saying whether the Teams
tab opened, something raised, or the page loaded with given rows and frames.

Modules:

- `Text`, `Wrappers`, `Json`: string helpers (trimming, ASCII case, split and
  join, digit runs), `Option`, and JSON values with path lookup.
- `Records`, `Scans`: team records, the (name, season) key, and merging
  scans without duplicate keys.
- `TeamRow`, `TeamRowFacts`: the six-cell team-history row parser. This
  covers the season and role searches in cell 0, the number cells, both
  win-percentage patterns, and the MVP rank.
- `NameFilter`: the two name validators and their denylists.
- `Seasons`: the current year, and the current/past split.
- `PlayerScroll`, `PlayerPage`: the player page (`actions/extract_player.py`).
  This covers the URL user id, the table scan, the scroll loop and the
  current and past teams.
- `HistoryScroll`, `History`: the team-history extractor
  (`actions/team_data_extractor.py`). This covers row deduplication, the
  flexible row parser and its validator, the scroll loop with its re-scan,
  the skill and season aggregation, and the retry loop.
- `TeamPage`: the team page (`actions/extract_team.py`). This covers the
  team id check, the roster row parser, the roster scan and the in-place
  expansion of each player with their history.
- `Settings`: `Config`'s merge of the user file over the defaults, `get` and `set`.
- `Sizes`: `APALogger._parse_size` and the `int()` it relies on.
- `Cache`: `CacheManager` over a map from cache key to file (modification
  time and contents).

Where the code does something a reader might not expect, the model follows
the code and states it as a lemma:

- `ac` is a denylist entry matched as a substring, so any name containing
  it, such as "Black Jacks" or "Grace", is rejected.
- The roster validator rejects any name containing `pa`.
- The old user-id URL pattern can never give an answer the new one does not.
- The two extractors' percentage patterns differ on `85.%`.
- A request with league `expanded` shares its cache key with the same
  request without a league but with expansion (`Cache.ExpandedLeagueCollides`).
- `Config.set` fails, changing nothing, when the path runs through an
  existing value that is not an object.

## Model

| member | source | states |
|---|---|---|
| Json.Lookup | config.py:101-111 | walking an empty path gives the value itself; a walk that succeeds on a non-empty path started at an object holding the first key |
| Text.Split | config.py:103 | splitting at a separator gives at least one part, and no part holds the separator |
| Text.SplitJoin | config.py:103 | joining the parts of a split with the separator gives the string back |
| Text.JoinSplit | config.py:103 | splitting a join of separator-free parts gives the parts back |
| Text.Trim | actions/extract_player.py:669-672 | trimming removes leading and trailing white space only: the result is a slice of the input with no space at either end, and everything cut is space |
| Text.Upper | logger.py:32 | upper-casing keeps the length and maps each letter to its capital, leaving other characters alone |
| Text.Lower | actions/extract_player.py:1042 | lower-casing keeps the length and maps each letter to its small form, leaving other characters alone |
| Text.NatToString | logger.py:40 | the decimal writing of a number is all digits and reads back as the number |
| NameFilter.SpecialCountAppend | actions/extract_player.py:1055 | the special-character count of two texts written one after the other is the sum of their counts |
| NameFilter.SpecialCountOne | actions/extract_player.py:1055 | a single character counts 1 exactly when it is neither alphanumeric nor whitespace, so with the sum rule the count is the number of such characters |
| NameFilter.LooksLikeName | actions/extract_player.py:1024-1063 | (definition) a name is kept when it has at least three characters, holds no denylist entry in its lower-cased form, is at least three characters once stripped, and stripped is neither all digits, nor ending in `%`, nor all digits once dots are removed, and at most half of its characters are special |
| NameFilter.IsValidTeamName | actions/extract_player.py:1024-1063 | (definition) the team-history validator: the shared rule with the navigation denylist |
| NameFilter.IsValidPlayerName | actions/extract_team.py:380-416 | (definition) the roster validator: the shared rule with the navigation denylist followed by the roster column headers |
| NameFilter.PlayerRuleStricter | actions/extract_team.py:380-416 | every name the roster rule accepts is accepted by the team-history rule, whose denylist is a prefix of the roster's |
| NameFilter.DeniedEntryRejected | actions/extract_player.py:1042-1044 | a name whose lower-cased form contains any denylist entry is rejected |
| NameFilter.DenylistIgnoresCase | actions/extract_player.py:1042-1043 | the denylist test gives the same answer for a name and its upper-cased form |
| NameFilter.AcRejected | actions/extract_player.py:1038 | because `ac` is on both denylists, any name containing `ac` in any case is rejected as a team and as a player |
| NameFilter.PaRejectedAsPlayer | actions/extract_team.py:398 | because `pa` is on the roster denylist, any name containing `pa` in any case is rejected as a player |
| NameFilter.BlackJacksRejected | actions/extract_player.py:1034-1044 | the team name `Black Jacks` is rejected, since it contains `ac` |
| NameFilter.DenylistMarked | actions/extract_team.py:390-397 | every entry of both denylists holds one of the letters a, e, i, u and p |
| NameFilter.UnmarkedNotDenied | actions/extract_player.py:1042-1044 | a name whose lower-cased form holds none of a, e, i, u and p contains no entry of either denylist |
| NameFilter.PlainNameAccepted | actions/extract_player.py:1024-1063 | a name of at least three letters, digits and spaces, starting with a letter, ending with a non-space and free of a, e, i, u and p once lower-cased, is accepted by both validators |
| NameFilter.CoolShotsAccepted | actions/extract_player.py:1024-1063 | the team name `Cool Shots` is accepted by both validators |
| Settings.Merge | config.py:83-91 | where default and user value are both objects the result is an object holding the keys of both; otherwise the user value |
| Settings.MergeConfig | config.py:83-91 | the merged configuration holds exactly the keys of the defaults and of the user file |
| Settings.MergeKeepsDefault | config.py:85-91 | a default key the user file does not mention keeps its default value |
| Settings.MergeUserWins | config.py:87-90 | a user key replaces the default wholesale unless both values are objects |
| Settings.MergeLeafFromUser | config.py:83-91 | any non-object setting the user file gives at some path is what the merged configuration holds there |
| Settings.MergeDefaultPath | config.py:83-91 | every path under a top-level key the user does not mention reads as in the defaults |
| Settings.MergeEmptyUser | config.py:83-91 | merging an empty user file gives the defaults |
| Settings.MergeSelf | config.py:83-91 | merging a value over itself gives it back |
| Settings.MergeIdempotent | config.py:83-91 | merging the same user file twice is the same as merging it once |
| Settings.Config.constructor | config.py:36-80 | the configuration is the defaults merged with the file when the file holds a JSON object, and the defaults when it is missing, unreadable or not an object |
| Settings.Config.Get | config.py:101-111 | the result is the value found by following the dotted path's keys from the root, or the default where a key is missing or indexes a non-object |
| Settings.SetPath | config.py:113-125 | a successful write keeps every top-level key and adds the path's first key |
| Settings.SetPathFails | config.py:117-121 | a write fails exactly when some proper prefix of the path ends at an existing non-object value |
| Settings.NewPathSucceeds | config.py:117-124 | writing any path into an empty configuration succeeds |
| Settings.GetAfterSet | config.py:101-124 | after a successful write, reading the same path gives the value written |
| Settings.SetLeavesOtherPaths | config.py:113-124 | a write leaves every path that leaves the written path before its end reading as before |
| Settings.PlugNone | config.py:117-124 | a failure while descending stays a failure when the chain of parents is rebuilt |
| Settings.Config.Set | config.py:113-125 | the write succeeds exactly when `SetPath` does, and the configuration becomes its result; a failed write changes nothing |
| Settings.Config.Descend | config.py:117-121 | walks to the parent of the target, creating missing objects, and records the chain of parents; it fails exactly when `SetPath` fails |
| Settings.Rebuild | config.py:117-124 | putting the updated parent back into the chain of parents gives the configuration `SetPath` describes |
| Sizes.ParseInt | logger.py:34-40 | a number is read only from a non-blank string, and a string of digits after trimming reads as its decimal value |
| Sizes.ParseSize | logger.py:30-40 | (definition) the text is upper-cased; a `KB`, `MB` or `GB` ending is cut off and the rest read by `int()` and multiplied by 1024, 1024² or 1024³; otherwise the whole text is read by `int()`; nothing where `int()` raises |
| Sizes.PlainDigitGroups | logger.py:40 | a plain digit string is a well-formed grouped literal with the same value |
| Sizes.WithoutUnderscores | logger.py:40 | dropping underscores from a string of digits and underscores leaves only digits |
| Sizes.ParseIntDigits | logger.py:40 | any digit string reads as its decimal value |
| Sizes.ParseIntGroups | logger.py:40 | a trimmed literal with underscores between digit groups reads as the digits without the underscores |
| Sizes.UnderscoreGrouping | logger.py:40 | `1_000` reads as 1000 |
| Sizes.TrailingLetterRejected | logger.py:40 | digits followed by a letter are not a number |
| Sizes.ParseSizeIgnoresCase | logger.py:30-32 | a size and its upper-cased form parse alike |
| Sizes.ParsePlain | logger.py:39-40 | a plain decimal number of bytes parses as itself |
| Sizes.ParseWithUnit | logger.py:32-38 | a number followed by `KB`, `MB` or `GB` in any case is that many kibibytes, mebibytes or gibibytes |
| Sizes.ScaledSize | logger.py:32-38 | digits followed by a unit suffix in any case scale by 1024, 1024² or 1024³ |
| Sizes.BareByteUnitRejected | logger.py:39-40 | digits followed by a bare `B` are not a size |
| TeamRow.SpaceRunEnd | actions/extract_player.py:660 | the `\s*` between season word and year: the maximal run of white space at a position |
| TeamRow.SeasonFrom | actions/extract_player.py:660 | a season match at a position is a season word in any case, white space and a `20dd` year, written back as the word as it appears, one space and the year |
| TeamRow.RoleFrom | actions/extract_player.py:667 | a role match at a position is the text there, which equals one of the role words up to case |
| TeamRow.At | actions/extract_player.py:660-667 | a match found at a position starts there and ends inside the text |
| TeamRow.Search | actions/extract_player.py:660-667 | `re.search`: the match found is the leftmost one; when none is found there is none at any position |
| TeamRow.Cut | actions/extract_player.py:664-671 | cutting out a match removes exactly its characters |
| TeamRow.ParseTeamCell | actions/extract_player.py:655-674 | the name is always trimmed; an empty cell gives no name, no season and no role |
| TeamRow.CellFields | actions/extract_player.py:660-671 | the season is the first season match, and the role is the first role match in the text left after cutting the season out |
| TeamRow.SeasonSearchFindsAny | actions/extract_player.py:660 | a season is found exactly when a season word followed by white space and a `20dd` year occurs somewhere |
| TeamRow.SeasonFoundIffPresent | actions/extract_player.py:660-662 | the record has a season exactly when such an occurrence exists |
| TeamRow.SeasonMatchShape | actions/extract_player.py:660-662 | a season match's text is a season word, one space and a `20dd` year |
| TeamRow.SeasonIsWordAndYear | actions/extract_player.py:660-662 | every season stored has that shape |
| TeamRow.RoleMatchShape | actions/extract_player.py:667-669 | a role match's text is one of the role words up to case |
| TeamRow.RoleIsKnown | actions/extract_player.py:667-669 | every role stored is one of the role words up to case, as written in the cell |
| TeamRow.TrimIdempotent | actions/extract_player.py:674 | trimming twice is trimming once |
| TeamRow.CellNumber | actions/extract_player.py:676-689 | a number cell gives a value exactly when its trimmed text is all digits |
| TeamRow.Pow10Add | actions/extract_player.py:693 | the power of ten for `a + b` fraction digits is the product of the powers for `a` and for `b` |
| TeamRow.FindPct | actions/extract_player.py:691-696 | the percentage read is the first percentage pattern match at or after a position; none is read when no position matches |
| TeamRow.MvpRank | actions/extract_player.py:698-701 | the MVP rank is present exactly when the cell is non-empty and its trimmed text is not `-`, and it is the trimmed text |
| TeamRow.RowRecord | actions/extract_player.py:645-709 | a six-cell row gives name, season and role from cell 0; skill, played and won from cells 1-3 when all digits; the win percentage from won and played when played is positive and won present, otherwise from cell 4; the MVP rank from cell 5; no team id and no status |
| TeamRowFacts.SearchFindsFirst | actions/extract_player.py:660-667 | when nothing matches before a position where a match exists, the search finds that match |
| TeamRowFacts.SearchSkips | actions/extract_player.py:660-667 | a position without a match is skipped by the search |
| TeamRowFacts.SpaceRunOver | actions/extract_player.py:660 | a run of white space ending at a non-space ends there |
| TeamRowFacts.WordAtStart | actions/extract_player.py:660-667 | a word matched at a position has its first two letters there, in any case |
| TeamRowFacts.SeasonWordsDiffer | actions/extract_player.py:660 | at most one season word matches at any position |
| TeamRowFacts.RoleWordsDiffer | actions/extract_player.py:667 | at most one role word matches at any position, so `Co-Captain` is never read as `Captain` |
| TeamRowFacts.SeasonFromReaches | actions/extract_player.py:660 | trying the season words in order reaches the one that matches |
| TeamRowFacts.RoleFromReaches | actions/extract_player.py:667 | trying the role words in order reaches the one that matches |
| TeamRowFacts.SeasonAtYear | actions/extract_player.py:660-662 | a season word followed by white space and a year matches up to the year's end, written as the word, one space and the year |
| TeamRowFacts.SeasonFromHere | actions/extract_player.py:660-662 | the same from the word that matches |
| TeamRowFacts.SeasonAtWritten | actions/extract_player.py:660-662 | after a name, a season word in any case, spaces and a year form a season match written with one space |
| TeamRowFacts.RoleAtWritten | actions/extract_player.py:667-669 | a role word at the end of the text is a role match, kept as written |
| TeamRowFacts.SeasonMatchWritten | actions/extract_player.py:660-664 | when nothing before it matches, the season found is the one written and cutting it out leaves name and role |
| TeamRowFacts.RoleMatchWritten | actions/extract_player.py:667-671 | when nothing before it matches, the role found is the one written and cutting it out leaves the name |
| TeamRowFacts.ParseWrittenCell | actions/extract_player.py:653-674 | a cell written as name, season and role, as in `All in the GameFall 2025Captain`, parses back into that name, the season with one space, and that role |
| TeamRowFacts.CellNumberOfNat | actions/extract_player.py:676-689 | a number written in decimal reads back as itself |
| TeamRowFacts.PctWritten | actions/extract_player.py:693 | `<digits>.<digits>%` reads as that decimal under both patterns |
| TeamRowFacts.PctWholeWritten | actions/extract_player.py:693 | `<digits>%` reads as that whole number under both patterns |
| TeamRowFacts.WholeAt | actions/extract_player.py:693 | the same, for any text of that shape |
| TeamRowFacts.PctBarePoint | actions/team_data_extractor.py:477 | `<digits>.%` reads as the digits under the history extractor's pattern and as nothing under the player page's |
| TeamRowFacts.BarePointLoose | actions/team_data_extractor.py:477 | `<digits>.%` reads as the digits under the history extractor's pattern |
| TeamRowFacts.BarePointAt | actions/team_data_extractor.py:477 | the same, for any text of that shape |
| TeamRowFacts.BarePointStrict | actions/extract_player.py:693 | `<digits>.%` reads as nothing under the player page's pattern |
| TeamRowFacts.StrictFindsNothing | actions/extract_player.py:693 | no position of a digit run followed by `.%` matches the player page's pattern |
| TeamRowFacts.RatioBounds | actions/extract_player.py:703-709 | when won is at most played, the recomputed percentage lies between 0 and 100 |
| Seasons.YearValue | actions/extract_player.py:452-454 | a `20dd` year lies between 2000 and 2099 |
| Seasons.FirstYear | actions/extract_player.py:452-454 | the year of a season is the one at the first `20dd` occurrence; there is none exactly when no position holds one |
| Seasons.Years | actions/extract_player.py:447-454 | at most one year per record |
| Seasons.YearsSound | actions/extract_player.py:447-454 | every year collected comes from some record's season |
| Seasons.YearsComplete | actions/extract_player.py:447-454 | every record whose season holds a year contributes it |
| Seasons.Max | actions/extract_player.py:457 | the maximum is one of the years and no year exceeds it |
| Seasons.CurrentYear | actions/extract_player.py:489 | (definition) the latest year found in the seasons, or 2025 when none holds a year |
| Seasons.CurrentOf | actions/extract_player.py:458-459 | filtering to the current year keeps at most all records |
| Seasons.CurrentOfMembers | actions/extract_player.py:458-495 | a record is kept as current exactly when it is one of the records and its non-empty season contains the year as text |
| Seasons.MarkAll | actions/extract_player.py:495-500 | marking sets the status of every record and changes nothing else, in order |
| Seasons.MarkAppend | actions/extract_player.py:492-500 | marking one more record appends it marked |
| Seasons.PastOf | actions/extract_player.py:496-500 | the past records are at most all records |
| Seasons.PastMarked | actions/extract_player.py:496-500 | every past record is marked past and is not current |
| Seasons.PastOfMembers | actions/extract_player.py:490-500 | every record that is not current appears, marked past, among the past records, and every past record is such a record |
| Seasons.PartitionCount | actions/extract_player.py:490-500 | past and current records together are as many as the records |
| Seasons.YearString | actions/extract_player.py:459 | a year between 2000 and 2099 is written with four digits |
| Seasons.YearDigits | actions/extract_player.py:452-459 | the year read from a season is written as the four characters it was read from |
| Seasons.ContainsYear | actions/extract_player.py:452-459 | a season containing a year written out has a year of its own |
| Seasons.LatestIsCurrent | actions/extract_player.py:487-500 | when some season holds a year, at least one record is current and fewer records than all are past |
| Seasons.NoYearAllPast | actions/extract_player.py:487-500 | when no season holds a year, the year defaults to 2025 and every record is past |
| Seasons.CurrentTeamsLatest | actions/extract_player.py:443-459 | when some season holds a year, the current teams are the records whose season holds the latest year, and there is at least one |
| Seasons.CollectYears | actions/extract_player.py:447-454 | the loop collects the years of the records in order |
| Seasons.ExtractCurrentTeams | actions/extract_player.py:437-466 | the result is the records filtered to the latest year, or all records when no year is found |
| Seasons.ExtractPastTeams | actions/extract_player.py:468-508 | the past records of the latest year (2025 when none), in order and marked past; the current ones marked current |
| Seasons.Classify | actions/extract_player.py:490-500 | the loop splits the records into the past ones and the current ones, each marked |
| Records.KeysAppend | actions/extract_player.py:526-530 | appending a record adds exactly its (name, season) key to the keys held |
| Records.KeysConcat | actions/extract_player.py:526-530 | the keys of two lists joined are the keys of each |
| Records.MergeBatchFacts | actions/extract_player.py:525-530 | merging a scan only appends to the collection, which ends up holding exactly the keys of both, keeps its keys unique, and holds nothing that was in neither |
| Records.AddFacts | actions/extract_player.py:527-529 | one record is appended only when its key is new, and nothing else changes |
| Records.MergeBatch | actions/extract_player.py:525-530 | (definition) the scan's records are added one by one in scan order, each appended only when its key is not yet collected |
| Records.MergeBatchStep | actions/extract_player.py:526-530 | merging a scan is merging its records one at a time in scan order |
| Records.MergeKnownIsIdentity | actions/extract_player.py:526-530 | a scan whose keys are all held already leaves the collection unchanged |
| Records.MergeTwice | actions/extract_player.py:526-530 | merging the same scan twice adds nothing the first merge did not |
| Records.MergeGrowth | actions/extract_player.py:532-533 | the collection grows by exactly the number of keys of the scan it did not hold |
| Records.NoDuplicateKeysCount | actions/extract_player.py:526-533 | a collection without duplicate keys has as many keys as records, so the count compared against the previous one counts keys |
| Records.MergeAll | actions/extract_player.py:522-530 | merging scans one after another from nothing never holds two records with the same key |
| Records.MergeAllCovers | actions/extract_player.py:522-530 | every key any scan found is held after merging all of them |
| Records.MergeAllFromScans | actions/extract_player.py:522-530 | every record held came from some scan |
| Records.MergeScan | actions/extract_player.py:525-530 | the loop over a scan gives the merge and reports how many records it appended |
| Records.MergeScanStep | actions/extract_player.py:526-530 | one more record of a scan is one more append-if-new step |
| Records.SkipHeader | actions/extract_player.py:598-609 | the records kept from a table leave out row 0, so there are fewer of them than rows |
| Records.SkipHeaderStep | actions/extract_player.py:598-609 | scanning one more row appends its record when it is past row 0 and parsed |
| Records.SkipHeaderMembers | actions/extract_player.py:598-609 | a record is kept exactly when some row after the first parsed to it |
| Records.HeaderIgnored | actions/extract_player.py:599-600 | whatever row 0 holds makes no difference |
| Scans.ViewAt | actions/extract_player.py:520-522 | what the table shows at each scan is one of the given views; after the last, the page keeps showing the last |
| Scans.ViewSettles | actions/extract_player.py:520-522 | past the last view every further scan sees the same view |
| Scans.Batches | actions/extract_player.py:520-522 | the records of the first `n` scans, one list per scan |
| Scans.CollectedMergesAll | actions/extract_player.py:520-530 | the collection after `n` scans is the merge of those scans' records |
| Scans.CollectedCovers | actions/extract_player.py:520-530 | after `n` scans the collection holds each scan's keys, has no duplicate keys, and holds only records some scan found |
| PlayerScroll.RunningBefore | actions/extract_player.py:520-581 | while the loop runs, no earlier scan gave a reason to stop |
| PlayerScroll.ScrollStep | actions/extract_player.py:532-581 | the counter resets to 0 after a productive scan and goes up by one otherwise; the loop stops when scrolling after an unproductive scan raises, when the page is at its bottom, or when the counter reaches 30 |
| PlayerScroll.RunContinues | actions/extract_player.py:520-581 | one more pass keeps the loop invariant: the previous count is the collection size, the counter is at most 30 |
| PlayerScroll.Run | actions/extract_player.py:520-581 | the loop ends after at most the number of views plus 30 scans |
| PlayerScroll.RunStops | actions/extract_player.py:532-581 | a pass whose scroll raises after an unproductive scan, or which finds the page bottom, ends the loop with the merged collection |
| PlayerScroll.RunGoesOn | actions/extract_player.py:532-581 | any other pass goes on with the merged collection and the updated counters |
| PlayerScroll.RunMeetsSpec | actions/extract_player.py:520-581 | the loop started at any reachable state ends with the collection of all scans made, the last scan giving a reason to stop and none before it |
| PlayerScroll.ContinueStep | actions/extract_player.py:520-581 | the same promise for a pass that goes on |
| PlayerScroll.ContinueFacts | actions/extract_player.py:532-575 | after a pass that goes on, the loop state is the collection and counter of one scan later |
| PlayerScroll.ContinueMeetsSpec | actions/extract_player.py:520-581 | a run that goes on keeps the promise once the rest of the run does |
| PlayerScroll.StopMeetsSpec | actions/extract_player.py:576-581 | a run that stops at this pass keeps the promise |
| PlayerScroll.RunFromStartMeetsSpec | actions/extract_player.py:510-588 | started from nothing, the loop returns the merge of all scans it made and stops at the first scan that gives a reason to |
| PlayerPage.CheckedPlayerUrl | actions/extract_player.py:42-49 | a URL is built exactly when the user id is all digits, and it is `https://league.poolplayers.com/<league>/member/<userid>` |
| PlayerPage.DigitsFrom | actions/extract_player.py:71 | the `(\d+)` group: the maximal run of digits at a position |
| PlayerPage.AfterSegment | actions/extract_player.py:70-71 | the part of a URL after the site prefix and a non-empty segment without `/` starts with `/` |
| PlayerPage.AfterSegmentOf | actions/extract_player.py:70-71 | for the site prefix and such a segment, that part is what follows the segment |
| PlayerPage.AfterSegmentSplits | actions/extract_player.py:70-71 | whenever that part exists, the URL is the prefix, such a segment and that part |
| PlayerPage.NewPatternUserid | actions/extract_player.py:71-76 | the new pattern yields only digit strings |
| PlayerPage.OldPatternUserid | actions/extract_player.py:70-81 | the old pattern yields only digit strings |
| PlayerPage.OldPatternRedundant | actions/extract_player.py:67-83 | whenever the old pattern matches, the new one matches with the same user id, so the extraction is the new pattern alone |
| PlayerPage.UseridFromUrl | actions/extract_player.py:67-83 | (definition) the user id from the `/member/<digits>` pattern, else from the old pattern, else none |
| PlayerPage.MemberTailDigits | actions/extract_player.py:71 | after `/member/`, digits followed by a non-digit or nothing are read whole |
| PlayerPage.MemberTailSplits | actions/extract_player.py:71 | a tail starting with `/member/` splits into the digits read and a rest that does not start with a digit |
| PlayerPage.MemberUrlJoin | actions/extract_player.py:71 | the pieces of a member URL put together give the member shape |
| PlayerPage.MemberUrlYields | actions/extract_player.py:67-83 | a URL of the shape `https://league.poolplayers.com/<segment>/member/<digits><non-digit tail>` yields those digits |
| PlayerPage.UseridHasMemberShape | actions/extract_player.py:67-83 | a URL that yields a user id has that shape, so every other URL yields nothing |
| PlayerPage.PlayerUrlRoundTrip | actions/extract_player.py:29-83 | the URL built for a league and a numeric user id yields that user id back |
| PlayerPage.ParseTeamRow | actions/extract_player.py:645-719 | a row gives a record exactly when it has at least six cells and a non-empty name; the record is the strict six-cell layout with the page's user id as team id and status current |
| PlayerPage.RowTeam | actions/extract_player.py:602-607 | a row the table scan keeps has a name the validator accepts, the page's user id and status current |
| PlayerPage.ParsedRows | actions/extract_player.py:598-607 | the table's rows are parsed one by one, in order |
| PlayerPage.ScanTable | actions/extract_player.py:590-613 | the loop over the table rows gives the table's records: row 0 skipped, then every parsed and valid row in order |
| PlayerPage.ScanStep | actions/extract_player.py:598-609 | scanning one more row appends its record when it is past row 0, parsed and valid |
| PlayerPage.ParsedPrefix | actions/extract_player.py:598-607 | parsing the first rows of a table gives the first parsed rows |
| PlayerPage.TableTeamsRows | actions/extract_player.py:598-609 | a record is in the scan's result exactly when some row after row 0 gave it |
| PlayerPage.TableTeams | actions/extract_player.py:598-609 | (definition) row 0 is skipped as the header and every later row that parses contributes its record, in row order |
| PlayerPage.TableTeamsValid | actions/extract_player.py:602-607 | every record the scan keeps has a valid name, the page's user id and status current |
| PlayerPage.ViewOf | actions/extract_player.py:520-579 | a frame of the page gives its table's records and its two loop signals |
| PlayerPage.Views | actions/extract_player.py:520-522 | the loop's views are the frames' views, one for one |
| PlayerPage.FrameAt | actions/extract_player.py:520-522 | the frame seen at a scan is one of the given frames |
| PlayerPage.ViewAtFrame | actions/extract_player.py:520-522 | the view at any scan is the view of the frame seen at that scan |
| PlayerPage.FrameSignals | actions/extract_player.py:536-579 | the loop signals a view carries are the frame's |
| PlayerPage.ScanFrame | actions/extract_player.py:522 | scanning the page at a scan gives that scan's records |
| PlayerPage.ScrollScan | actions/extract_player.py:520-581 | one pass of the loop: merges the scan into the collection, and either stops where the loop function `PlayerScroll.Run` stops or leaves the next pass's invariant and counters |
| PlayerPage.ScrollFrom | actions/extract_player.py:520-581 | the while loop from any reachable state returns the collection and scan count `PlayerScroll.Run` gives |
| PlayerPage.ScrollAndCollect | actions/extract_player.py:510-588 | the records returned are the merge of all scans made, and the loop stops at the first scan that gives a reason to stop |
| PlayerPage.ExtractCurrentTeams | actions/extract_player.py:437-466 | the current teams are the table's records filtered to the latest year, or all of them when no year is found |
| PlayerPage.ExtractPastTeams | actions/extract_player.py:468-508 | the past teams are the scrolled records whose season lacks the latest year, in order, each marked past |
| History.HandlesAppend | actions/team_data_extractor.py:405-411 | recording one more row adds exactly its handle to the handles seen |
| History.UniqueRows | actions/team_data_extractor.py:404-411 | (definition) the rows of all selectors with every row whose handle was already seen removed, in first-seen order |
| History.UniqueRowsHandles | actions/team_data_extractor.py:405-411 | removing duplicates keeps every row handle that occurs |
| History.UniqueRowsDistinct | actions/team_data_extractor.py:405-411 | after removing duplicates no handle occurs twice |
| History.UniqueRowsFirstSeen | actions/team_data_extractor.py:405-411 | every row kept is the first occurrence of its handle, so first-seen order is kept |
| History.DedupRows | actions/team_data_extractor.py:405-411 | the loop with its set of seen handles gives the deduplicated rows |
| History.YearFirst | actions/team_data_extractor.py:516-520 | two cells whose trimmed first cell is four digits give that as season and the second cell as name, with no statistics |
| History.NameFirst | actions/team_data_extractor.py:521-541 | other rows of two to five cells give the first cell as name and the second as season, with no statistics |
| History.ShortNameCell | actions/team_data_extractor.py:514-541 | the cell a short row takes its name from exists |
| History.ShortRowValid | actions/team_data_extractor.py:514-563 | a short row gives a record exactly when its name cell is not blank, and that record passes this extractor's validator |
| History.SixCells | actions/team_data_extractor.py:512-514 | a row of six or more cells is handed to the six-cell parser, with its looser percentage pattern |
| History.NamelessRowDropped | actions/team_data_extractor.py:549-563 | a six-cell row with an empty name still gives a record, and the validator drops it |
| History.HistoryRowTeam | actions/team_data_extractor.py:418-424 | a row the table scan keeps has at least two cells, was parsed by the flexible parser and passes this extractor's validator |
| History.FlexibleRow | actions/team_data_extractor.py:498-547 | (definition) six or more cells go to the six-column parser; shorter rows give a name and a season from their stripped cells, and nothing when the name is empty |
| History.IsHistoryValid | actions/team_data_extractor.py:549-563 | (definition) a record is valid when it has a non-empty name and at least one of skill, played, won or season |
| History.HistoryParsed | actions/team_data_extractor.py:413-424 | the rows are parsed one by one, in order |
| History.ScanHistoryTable | actions/team_data_extractor.py:366-426 | the table scan deduplicates the rows, skips the first row of the combined list, and keeps every parsed and valid row in order |
| History.ScanUniqueRows | actions/team_data_extractor.py:413-424 | the loop over the deduplicated rows keeps the parsed, valid records after the first row |
| History.HistoryScanStep | actions/team_data_extractor.py:413-424 | one more row appends its record when it is past the first row, parsed and valid |
| History.HistoryParsedPrefix | actions/team_data_extractor.py:413-424 | parsing the first rows gives the first parsed rows |
| History.HistoryTableRows | actions/team_data_extractor.py:413-424 | a record is in the scan's result exactly when some deduplicated row after the first gave it, and every such record is valid |
| History.HistoryViewOf | actions/team_data_extractor.py:282-304 | a frame of the page gives its table's records and whether scrolling raises |
| History.HistoryViews | actions/team_data_extractor.py:282-283 | the loop's views are the frames' views, one for one |
| History.HistoryFrameAt | actions/team_data_extractor.py:282-283 | the frame seen at a scan is one of the given frames |
| History.HistoryViewAtFrame | actions/team_data_extractor.py:282-283 | the view at any scan is the view of the frame seen at that scan |
| History.ScanAndMerge | actions/team_data_extractor.py:282-346 | one scan merged into the collection, with the number of records it added |
| History.HistoryPass | actions/team_data_extractor.py:282-355 | one pass of the loop: either it ends the loop the way the loop function says, or it hands the next pass the collection and counter the loop function uses |
| History.HistoryScrollFrom | actions/team_data_extractor.py:280-357 | the while loop from any reachable state gives the outcome of the loop function and returns its collection, or nothing after a raise |
| History.HistoryScrollAndCollect | actions/team_data_extractor.py:271-364 | the records returned are the loop's outcome, which meets the loop's promise |
| History.ScrolledMeetsSpec | actions/team_data_extractor.py:271-364 | started from nothing, the loop's outcome meets the loop's promise |
| History.ScrolledTeamsFound | actions/team_data_extractor.py:271-364 | every record returned was found by some scan and is valid |
| History.HistoryCurrentTeams | actions/team_data_extractor.py:203-230 | the current teams are the table's records filtered to the latest year, or all of them when no year is found |
| History.HistoryPastTeams | actions/team_data_extractor.py:232-269 | the past teams are the scrolled records whose season lacks the latest year (2025 when none), in order, each marked past |
| History.Ranks | actions/team_data_extractor.py:66-73 | every skill kept lies between 1 and 9 |
| History.RanksMembers | actions/team_data_extractor.py:66-73 | a value is kept exactly when some team has it as its skill within 1 to 9 |
| History.Min | actions/team_data_extractor.py:85 | the minimum is one of the values and no value is below it |
| History.Stats | actions/team_data_extractor.py:62-91 | (definition) minimum and maximum of the skill ranks from 1 to 9, `N/A` when there are none, and the number of distinct stripped seasons |
| History.Aggregate | actions/team_data_extractor.py:62-91 | the loop over the teams gives the statistics: minimum and maximum skill within 1 to 9, and the number of distinct counted seasons |
| History.Tally | actions/team_data_extractor.py:66-79 | one team adds its skill when it lies in 1 to 9, and its trimmed season when it is not empty, blank or `N/A` |
| History.AggregateStep | actions/team_data_extractor.py:65-79 | one more team adds its skill and season the same way |
| History.StatsSkills | actions/team_data_extractor.py:84-89 | minimum and maximum are `N/A` exactly when no team has a skill in 1 to 9, and otherwise are the least and greatest such skill |
| History.NoSeasonsPlayed | actions/team_data_extractor.py:76-91 | the season count is 0 exactly when no team has a counted season |
| History.SeasonsPlayedBound | actions/team_data_extractor.py:76-91 | the season count is at most the number of teams |
| History.CardAddOne | actions/team_data_extractor.py:79 | adding a season grows the set by at most one |
| History.TryOnce | actions/team_data_extractor.py:35-53 | one attempt yields its current teams followed by its past teams, and nothing when the tab cannot be opened or something raises |
| History.RetryFrom | actions/team_data_extractor.py:18-114 | (definition) from attempt `i` on: nothing once the limit is reached, the statistics of this attempt when it yields teams, otherwise the next attempt |
| History.NoneYieldStep | actions/team_data_extractor.py:55-60 | one more attempt without teams keeps the record of attempts without teams |
| History.RetryFromSpec | actions/team_data_extractor.py:18-114 | from any attempt on, the loop gives nothing exactly when no attempt within the limit yields teams, and otherwise the statistics of the first that does |
| History.RetryExhausted | actions/team_data_extractor.py:112-114 | with no attempts left the loop gives nothing |
| History.RetryFound | actions/team_data_extractor.py:55-91 | the first attempt that yields teams gives their statistics |
| History.RetryHit | actions/team_data_extractor.py:55-91 | an attempt that yields teams ends the loop with their statistics |
| History.RetrySkip | actions/team_data_extractor.py:93-110 | an attempt that yields nothing passes to the next one |
| History.ExtractHistory | actions/team_data_extractor.py:16-114 | the loop of at most `max_retries` attempts gives the statistics of the first attempt that yields teams, or nothing |
| HistoryScroll.PassGrowth | actions/team_data_extractor.py:282-357 | a first scan that finds something new sees a view that has not run out |
| HistoryScroll.RescanGrowth | actions/team_data_extractor.py:339-346 | a re-scan that finds something new sees a view that has not run out |
| HistoryScroll.PassGrows | actions/team_data_extractor.py:352-357 | a pass that finds something goes on with the counter reset and counted once |
| HistoryScroll.PassRaises | actions/team_data_extractor.py:300-364 | a pass that finds nothing and whose scroll raises ends the loop with nothing |
| HistoryScroll.PassSettles | actions/team_data_extractor.py:339-351 | a pass whose scan and re-scan both find nothing ends the loop with its collection |
| HistoryScroll.PassRecovers | actions/team_data_extractor.py:339-357 | a pass whose re-scan finds something goes on with one more attempt counted |
| HistoryScroll.HistorySpecEarlier | actions/team_data_extractor.py:280-357 | what the loop promises from a later pass it promises from an earlier one |
| HistoryScroll.HistoryRun | actions/team_data_extractor.py:280-357 | (definition) one pass as the loop makes it: the counter limit ends it; a productive scan resets the counter; an unproductive scan whose scroll raises ends it raised; otherwise a re-scan settles when it finds nothing and counts one attempt when it does |
| HistoryScroll.HistoryRunMeetsSpec | actions/team_data_extractor.py:280-357 | from any reachable pass the loop settles on the collection of all scans made, after a scan and a re-scan that both found nothing new; stops at the counter limit with the collection so far; or raises only at an unproductive scan whose scroll raises |
| HistoryScroll.QuietPassMeetsSpec | actions/team_data_extractor.py:300-357 | the promise holds for a pass whose first scan finds nothing new |
| HistoryScroll.RescanMeetsSpec | actions/team_data_extractor.py:339-357 | the promise holds for a pass that re-scans |
| HistoryScroll.RecoveredMeetsSpec | actions/team_data_extractor.py:339-357 | the promise holds for a pass whose re-scan finds something |
| HistoryScroll.CollectedNext | actions/team_data_extractor.py:283-294 | merging scan `k` into the collection after `k` scans gives the collection after `k + 1` |
| HistoryScroll.GrowthMeetsSpec | actions/team_data_extractor.py:352-357 | a productive pass keeps the promise once the rest of the run does |
| HistoryScroll.RaiseMeetsSpec | actions/team_data_extractor.py:300-364 | a raising pass keeps the promise |
| HistoryScroll.SettleMeetsSpec | actions/team_data_extractor.py:339-351 | a settling pass keeps the promise |
| HistoryScroll.SettledSpec | actions/team_data_extractor.py:339-351 | a settled end after two unproductive scans meets the promise |
| HistoryScroll.RecoveryMeetsSpec | actions/team_data_extractor.py:339-357 | a recovering pass keeps the promise once the rest of the run does |
| TeamPage.CheckedTeamUrl | actions/extract_team.py:29-40 | a URL is built exactly when the team id is non-empty and all digits, and it is `https://league.poolplayers.com/team/` followed by the id |
| TeamPage.TrailingDigitsStart | actions/extract_team.py:305 | the start of the run of digits that ends the text |
| TeamPage.TrailingRunFrom | actions/extract_team.py:305 | any digit run reaching the end starts no earlier than that point |
| TeamPage.NameCellWithId | actions/extract_team.py:301-311 | a trimmed name cell ending in `#<digits>` gives those digits as member id and the trimmed text before `#` as name |
| TeamPage.NameCellWithoutId | actions/extract_team.py:312-315 | a trimmed name cell with no such ending is the name as it is, with no member id |
| TeamPage.SplitMemberId | actions/extract_team.py:301-315 | (definition) on stripped text, a trailing `#<digits>` gives the digits as member id and the stripped text before `#` as name; otherwise the whole text is the name |
| TeamPage.MemberIdRoundTrip | actions/extract_team.py:301-315 | a trimmed name followed by `#` and digits parses back into that name and member id |
| TeamPage.IdCellParses | actions/extract_team.py:301-315 | the same for a cell given as that concatenation |
| TeamPage.IdCellSplits | actions/extract_team.py:305-311 | splitting such a cell at its `#` gives its parts |
| TeamPage.IdCellParts | actions/extract_team.py:305 | the `#` and digits at the end of such a cell are found where they were written |
| TeamPage.IdCellEnds | actions/extract_team.py:302 | such a cell, its name not starting with a space, is its own trimmed form |
| TeamPage.FindMember | actions/extract_team.py:326 | the search for `/member/<digit>` finds the first position that holds it, or proves there is none |
| TeamPage.FindMemberSkips | actions/extract_team.py:326 | with nothing before it, the search stops at the first occurrence |
| TeamPage.HrefUserid | actions/extract_team.py:317-330 | the user id of a link is all digits, and there is none exactly when no `/member/<digit>` occurs |
| TeamPage.HrefUseridOf | actions/extract_team.py:317-330 | a link `/<league>/member/<digits><non-digit tail>` gives those digits |
| TeamPage.WonPlayed | actions/extract_team.py:337-343 | won and played are read only when the trimmed cell is exactly two digit strings around one `/`, won first |
| TeamPage.WonPlayedRoundTrip | actions/extract_team.py:337-343 | written won and played counts read back |
| TeamPage.WonPlayedOf | actions/extract_team.py:337-343 | any two digit strings around `/` read as their values |
| TeamPage.NoSlashInDigits | actions/extract_team.py:340-341 | a digit string holds no `/` |
| TeamPage.FirstDigit | actions/extract_team.py:356-364 | the first digit at or after a position, or none when there is none |
| TeamPage.FirstNumber | actions/extract_team.py:352-364 | the PPM and PA cells give a number exactly when they hold a digit |
| TeamPage.ParsePlayerRow | actions/extract_team.py:292-374 | a row gives a record exactly when it has at least six cells and a non-empty name; won and played are both set or both absent; the record is not yet expanded |
| TeamPage.WinPctRecomputed | actions/extract_team.py:345-374 | with played positive the win percentage is computed from won and played; otherwise it is what cell 3 says |
| TeamPage.RowPlayer | actions/extract_team.py:282-285 | a row the roster keeps has a name the roster validator accepts |
| TeamPage.RosterParsed | actions/extract_team.py:280-285 | the roster's rows are parsed one by one, in order |
| TeamPage.Kept | actions/extract_team.py:283-285 | the records kept are at most the rows parsed |
| TeamPage.KeptMembers | actions/extract_team.py:283-285 | a record is kept exactly when some row parsed to it |
| TeamPage.KeptLast | actions/extract_team.py:283-285 | one more row adds its record and nothing else |
| TeamPage.HeldSplit | actions/extract_team.py:283-285 | a record some row gave came from the rows before the last or from the last |
| TeamPage.Roster | actions/extract_team.py:273-290 | the roster has at most one player per row |
| TeamPage.RosterStep | actions/extract_team.py:280-285 | scanning one more row appends its player when parsed and valid |
| TeamPage.ExtractPlayers | actions/extract_team.py:273-290 | the loop over the table rows gives the roster: every parsed, valid row in order, with no header skipped by position |
| TeamPage.RosterMembers | actions/extract_team.py:273-416 | a player is on the roster exactly when some row gave it, and every such player has a valid name and is not yet expanded |
| TeamPage.ExpandedPlayerKeeps | actions/extract_team.py:680-706 | expansion changes only the expanded statistics, leaves a player without a user id unchanged, and sets them for every player with one |
| TeamPage.ExpandedPlayer | actions/extract_team.py:680-706 | (definition) a player without a user id is unchanged; otherwise the expansion fields get the history statistics, or `N/A` when the retry loop gives none |
| TeamPage.ExpandedFromHistory | actions/extract_team.py:686-706 | a player with a user id gets statistics exactly when some history attempt finds teams, and then those of the first attempt that does; otherwise all three fields are `N/A` |
| TeamPage.ExpandAll | actions/extract_team.py:669-711 | expansion keeps the roster's length |
| TeamPage.ExpandPlayers | actions/extract_team.py:669-711 | the loop expands every player in place, in order, each with the history attempts its own extraction sees |
| TeamPage.Install | actions/extract_team.py:693 | writing one player's expanded record moves the loop's frontier by one |
| TeamPage.ExpandOne | actions/extract_team.py:681-706 | one player's expansion is `ExpandedPlayer`: unchanged without a user id, otherwise the first successful attempt's statistics or `N/A` |
| Cache.KeyFields | cache_manager.py:45-50 | the request string has two to four colon-separated fields: action, identifier, the league when one is given, and `expanded` when expansion was asked for |
| Cache.KeyJoins | cache_manager.py:45-50 | the request string is exactly those fields joined with `:` |
| Cache.KeyString | cache_manager.py:32-53 | (definition) the request string `action:identifier`, then `:league` for a non-empty league, then `:expanded`; the model names the file by this string, where the source names it by its MD5 digest |
| Cache.KeySplits | cache_manager.py:45-50 | when action, identifier and league hold no colon, splitting the request string at `:` gives the fields back (round trip) |
| Cache.KeysDistinct | cache_manager.py:32-53 | two colon-free requests, neither with league `expanded`, that get the same key agree on action, identifier, expansion and league (an empty league counts as none) |
| Cache.ExpandedLeagueCollides | cache_manager.py:47-50 | league `expanded` without expansion gets the same key as no league with expansion |
| Cache.Fetch | cache_manager.py:59-117 | a lookup answers only when the request's file exists and is younger than the timeout and its data is a JSON object; the answer is that object with `_cache_info` replaced by the request's action, identifier, league and expansion, the file's time, and a `cache_key` field that holds the request string where the source stores its MD5 digest |
| Cache.IsValid | cache_manager.py:59-79 | (definition) an entry is valid when its file exists and its age is strictly below the timeout |
| Cache.ClearedKeys | cache_manager.py:162-209 | what a clear removes is a subset of the files present |
| Cache.ExpiredKeys | cache_manager.py:285-303 | what a cleanup removes is a subset of the files present |
| Cache.StoredThenFetched | cache_manager.py:84-156 | data written at time `written` is returned, with `_cache_info` rebuilt from the request as in `Fetch`, by any lookup of the same request before the timeout has passed |
| Cache.FailedDumpUnreadable | cache_manager.py:152-156 | after a dump that failed past the open, lookups of that request answer nothing and clearing by any action type deletes its file |
| Cache.ExpiredNotFetched | cache_manager.py:59-101 | once a file's age reaches the timeout the lookup returns nothing |
| Cache.CleanupKeepsFetch | cache_manager.py:285-303 | a cleanup changes no lookup made at the same moment |
| Cache.ClearedRequestCount | cache_manager.py:174-185 | clearing one request removes at most two files |
| Cache.ClearedRequestGone | cache_manager.py:174-185 | after clearing a request, neither its expanded nor its plain entry without a league can be fetched |
| Cache.ClearRequestKeepsOthers | cache_manager.py:174-185 | clearing a request leaves every lookup of another colon-free request, or of the same one with a league, unchanged |
| Cache.PairRemoved | cache_manager.py:178-183 | removing the two keys one after the other removes exactly those present, and counts them |
| Cache.CacheManager.constructor | cache_manager.py:17-27 | the timeout in seconds is the timeout in hours times 3600 |
| Cache.CacheManager.GetCachedData | cache_manager.py:84-121 | the lookup's result is `Fetch` on the current files and clock; nothing changes |
| Cache.CacheManager.CacheData | cache_manager.py:123-156 | the caller's dictionary gains `_cache_info` (request fields, with the request string as `cache_key`, and the timeout) however the write ends; when written, the file for the key holds it, stamped now, and the result is true; when the file cannot be opened the files are unchanged; when the dump fails after the open has emptied the file, that file is left unreadable and stamped now; both failures give false |
| Cache.CacheManager.ClearCache | cache_manager.py:162-209 | the files left are the old ones minus `ClearedKeys`, and the result is how many were removed |
| Cache.CacheManager.ClearRequest | cache_manager.py:174-185 | removes the expanded and the plain key of the request where present, and counts them |
| Cache.CacheManager.ClearKeys | cache_manager.py:178-183 | removes two distinct keys where present, and counts them |
| Cache.CacheManager.Delete | cache_manager.py:180-183 | removes one key, counting 1 when it was present |
| Cache.CacheManager.ClearMatching | cache_manager.py:186-205 | removes every file when no action is given, otherwise every file whose `_cache_info.action_type` is the action or which cannot be read, and counts them |
| Cache.CacheManager.CleanupExpired | cache_manager.py:285-303 | the files left are the old ones minus the expired ones, and the result is how many were removed |

## Left out

- The browser. Navigation, selectors, clicks, notification handling and
  `_is_at_bottom_of_page` are outside the model. What they report is an
  input: rows of cell texts, a link's `href`, frames with a bottom flag and a
  scroll-raises flag, and history attempts. `_click_teams_tab` is modelled
  only as the `TabMissing` attempt.
- Sleeps, random delays and console output. They have no effect on the results.
- History frames carry no bottom flag. The team-history scroll loop never
  asks whether the page is at its bottom.
- Exceptions raised while reading a row or a cell. Where the source catches
  them, they are modelled by the paths they lead to (a row giving nothing,
  an attempt failing). A raise that reaches a method's caller is not modelled.
- The league argument of `extract_player_team_history`. It only picks the
  URL that the browser visits.
- TeamRow.RowRecord: the recomputed win percentage is the exact ratio
  `100 * won / played` as a real. The player page's `round(..., 1)` is not
  modelled, and neither is floating point in general.
- TeamPage.WinPctRecomputed: the same exact ratio stands for the roster's
  rounded value.
- TeamPage.FirstNumber: PPM and PA are read as exact decimals, not Python floats.
- Digits and letters are ASCII. Python's `isdigit`, `isalnum`, `\d`, `lower`
  and `upper` also accept or change other Unicode characters; the model
  treats those as ordinary non-digit, non-letter characters.
- Pages that never settle. After its last observed frame the page is taken
  to repeat that frame (`Scans.ViewAt`, `PlayerPage.FrameAt`,
  `History.HistoryFrameAt`). This is what makes both scroll loops end in the
  model. The bounds in `PlayerScroll.Run` and `HistoryScroll.HistorySpec` are
  counted from the point where the page settles. A page that keeps loading
  new rows on every pass resets the counter each time, and the source's loop
  then never stops; that case is not modelled.
- Row handles. Deduplication by `id(row)` is modelled with a natural number
  standing for each element handle the page returns.
- The expansion step catches exceptions around each player's history
  extraction. The modelled history extraction never raises, so that branch
  (which sets `N/A` like a missing result) is not separately modelled.
- Cache.KeysDistinct: the cache file name is the MD5 hash of the key string.
  The model names the file by the key string itself, so it treats the hash
  as one-to-one.
- Cache.Fetch: the clock is a parameter `now` in whole seconds. `cached_at`
  is the modification time as a number, not an ISO timestamp string. A
  cleanup uses one `now` for all the files it visits.
- Cache.CacheManager.CacheData: how the file write ends is the parameter
  `write`: written, the open fails, or the dump fails after the open. A dump
  that fails is taken to leave a file that does not parse as JSON.
- Cache.CacheManager.CacheData: the `cache_key` field it adds to the
  caller's dictionary holds the request string, where the source stores the
  MD5 digest of that string.
- Cache.Fetch: the `cache_key` field of the returned `_cache_info` holds the
  request string, where the source returns its MD5 digest.
- Cache.ClearedKeys: a cache file whose `_cache_info` is not an object is
  treated as not matching the action type. The source raises an uncaught
  error there.
- Cache.Fetch: a cache file holds either a JSON object or nothing readable.
  A file whose JSON is some other value is not modelled; the source raises on
  it both when reading it back and when clearing by action type.
- Errors raised by the file system while clearing or cleaning up. These make
  the source stop early with a partial count.
- `get_cache_stats`, the cache directory layout, and file encoding.
- The interactive prompts for a missing user id or team id.
- `_validate_url`.
- Loading and saving the configuration file. `Settings.Config.constructor`
  takes the file's parsed contents, or `None` when it is missing or
  unreadable. `set`'s save and the logger reset that follows it are not modelled.
- Settings.Config.Set: a write through a non-object value raises in the
  source. The model reports it as a failed write that changes nothing, which
  is what the configuration looks like after the raise.
- The logger's handlers and log files. Of `logger.py` only `_parse_size` is modelled.
- Display and export of the results (tables, JSON and CSV files).
