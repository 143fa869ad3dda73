# Journal document and statistics engine

This project models the core of a journaling service. Its data lives in one
JSON document with three collections: `users`, `files` (folders) and
`entries`. Each entry holds elements: text, checklist, highlight, problem
and achievement.

Typed repositories read the whole document, change it and write it back:

- `save` is an upsert by `id`;
- `delete` filters the collection, and deleting a file also deletes its entries;
- lookups are linear scans;
- a user's entries are filtered and then sorted newest first.

Over one user's slice of the document, two statistics engines compute:

- task counts and the completion rate;
- the mood histogram and the per-day activity window;
- the per-type element counts;
- the achievement catalogue and the productivity score;
- the longest streak of consecutive days.

The statistics routes add a productivity level, strengths, weaknesses and a
storage-quota report. The authentication routes add:

- the upload-extension check;
- registration, with its required-field and duplicate-email gates;
- the partial profile update;
- the avatar replacement.

The older single-file handlers keep their own smaller document, with no
users. They convert the hour of the day to a 12-hour clock text. The browser
helpers write digits in Arabic-Indic and format the same clock text.

Modules, one per source component:

| module | file | models |
|---|---|---|
| `Wrappers` | wrappers.dfy | `Option` |
| `Text` | text.dfy | decimal rendering and parsing, zero padding, round-half-even, `strip` (with the characters `str.isspace()` accepts)/`lstrip`/`rstrip`, ASCII `lower()` |
| `Collections` | collections.dfy | the generic scans every repository uses: filter, find-first, upsert, lookup |
| `Sorting` | sorting.dfy | the sort of `sorted()`, on strings and on day numbers |
| `Records` | records.dfy | the record shapes of the document and the element tagged union |
| `Document` | document.dfy | the document store and its load-with-default |
| `EntryRepo` | entry_repo.dfy | `Entry` |
| `FileRepo` | file_repo.dfy | `File` |
| `UserRepo` | user_repo.dfy | `User` |
| `FileManager` | file_manager.dfy | backup rotation, stale-avatar cleanup, file sizes |
| `StorageManager` | storage.dfy | storage accounting, size formatting, avatar paths |
| `Stats` | stats.dfy | `Stats` |
| `StatsCalculator` | stats_calculator.dfy | `StatsCalculator` |
| `StatsRoutes` | stats_routes.dfy | productivity analysis and the quota report |
| `AuthRoutes` | auth_routes.dfy | the authentication routes |
| `Clock` | clock.dfy | the 12-hour clock |
| `LegacyApp` | legacy_app.dfy | the handlers in `app.py` |
| `Script` | script.dfy | `toArabicNumber` and `formatTime` |

Representation choices:

- Timestamps are integer seconds, and a calendar day is `t / 86400`.
- An ISO-8601 string's order is taken to be its numeric order.
- The clock, generated ids and file-system facts (sizes, existence,
  modification times) are parameters.
- The serialised length of an entry is a parameter function `jsonLength`.
- A directory is a class holding its listing (a sequence of names, or a map
  from name to modification time). A disk is a map from path to size.
- Disk paths are relative to the package's base directory. The route
  handlers and `models/user.py` use the working-directory path
  `public/avatars/<id>.jpg`, while `utils/storage.py` uses
  `BASE_DIR / 'public' / 'avatars'`. The model treats the two as one file, as
  they are when the service runs from its base directory.
- Where statistics code loops and accumulates, it is a method with a loop,
  proved equal to a recursive specification function. The properties are
  proved about that function.

Where the code and the design description disagree, the model follows the
code:

- The weekly streak does not deduplicate same-day dates, so a repeated day
  resets the run. The deduplicating streak the design intends is modelled
  beside it (see Findings).
- `utils/storage.py` counts the avatar file `<id>.jpg` whenever it exists.
  It does not look at the user's `avatar` field, as `models/user.py` does.
  Both rules are modelled.

## Model

| member | source | states |
|---|---|---|
| Document.LoadData | utils/storage.py:14-22 | a missing or unreadable document loads as three empty collections; a readable one loads unchanged |
| Document.Store.Load | models/user.py:27-36 | the store holds exactly the loaded document |
| Collections.Filter | models/entry.py:51 | the comprehension keeps exactly the elements satisfying the condition, each taken from the input |
| Collections.FilterIsSubsequence | models/file.py:52 | a filtered collection keeps its survivors in their original relative order |
| Collections.FilterAppend | models/file.py:54 | filtering distributes over concatenation |
| Collections.FilterCount | models/entry.py:51 | each record occurs in the result as often as in the input if it passes, otherwise never |
| Collections.FindIndex | models/entry.py:36-40 | the loop stops at the first index with the key; none is found exactly when no element has the key |
| Collections.LookupSpec | models/entry.py:55-64 | a lookup is None exactly when no record has the id; otherwise it is the first record with that id |
| Collections.UpsertReplaces | models/entry.py:35-40 | an existing id is replaced at its first index, the length is kept, and every other index is unchanged |
| Collections.UpsertAppends | models/entry.py:42-43 | a new id is appended at the end and the length grows by one |
| Collections.UpsertThenLookup | models/entry.py:28-46 | after an upsert the lookup of the saved id returns the saved record |
| Collections.UpsertOtherKeys | models/entry.py:28-46 | an upsert does not change the lookup of any other id |
| Collections.UpsertByScan | models/entry.py:35-43 | the enumerate-and-break loop with its append fallback computes the upsert |
| Collections.FindByScan | models/entry.py:59-64 | the scan returns the first record with the id, or None |
| Collections.RemovedNotFound | models/entry.py:48-53 | after filtering out an id no record with that id is found |
| Collections.DistinctAtMostLength | utils/stats_calculator.py:121-123 | a set built from a sequence is no larger than it, and is empty only for the empty sequence |
| Sorting.Sort | utils/file_manager.py:32 | sorting yields a permutation of its input |
| Sorting.SortSorted | utils/file_manager.py:32 | under a total preorder the sorted output is ordered and a permutation of the input |
| Sorting.LexOrderIsTotalPreorder | utils/file_manager.py:32 | lexicographic order on names is total and transitive, so sorted backup names are ordered |
| Sorting.LexLeAntisymmetric | utils/file_manager.py:32 | two names each lexicographically at most the other are equal |
| Sorting.IntOrderIsTotalPreorder | utils/stats_calculator.py:110 | the order on day numbers is a total preorder |
| Records.DayOfMonotone | models/stats.py:94-95 | a later timestamp never falls on an earlier calendar day |
| Records.TypeName | models/stats.py:113-114 | an element has a type name exactly when it is one of the five recognised kinds |
| Text.NatToString | utils/storage.py:44 | the decimal rendering is non-empty, all digits, one digit exactly below ten, and has no leading zero |
| Text.ParseNatToString | utils/storage.py:44 | reading the rendering back gives the number |
| Text.IntToString | api/stats_routes.py:141-142 | a negative number renders as '-' and the digits of its magnitude; a non-negative one as its digits |
| Text.PadTwo | app.py:99 | padding keeps a text of two or more characters and left-fills a shorter one with zeros to length two |
| Text.TwoDigitsOfSmall | app.py:99 | a minute below 100 renders as exactly two digits that read back as the minute |
| Text.RoundHalfEvenSpec | models/stats.py:56 | the quotient is rounded to nearest, with ties to the even neighbour |
| Text.RoundingError | models/stats.py:56 | the rounded quotient times the divisor is within half the divisor of the dividend |
| Text.OneDecimal | utils/storage.py:46 | the one-decimal rendering ends in a '.' followed by a single digit |
| Text.LStripSpec | models/user.py:115 | `lstrip` removes exactly the longest prefix of the given characters |
| Text.RStripSpec | models/user.py:67 | `rstrip` removes exactly the longest suffix of the given characters |
| Text.StripIsInfix | models/user.py:67 | `strip` returns the infix left after removing whitespace-only ends, and the result starts and ends with no whitespace |
| Text.StripClean | models/user.py:67 | stripping text with no whitespace at either end changes nothing |
| Text.Lower | api/auth_routes.py:16 | lower-casing keeps the length and maps each character by itself |
| EntryRepo.ChooseId | models/entry.py:9 | a supplied non-empty id is kept, otherwise the generated one is used |
| EntryRepo.NewEntry | models/entry.py:8-15 | a new entry has the given owner and file, the default mood, no elements, and both timestamps equal to now |
| EntryRepo.Save | models/entry.py:28-46 | saving upserts the entry by id, returns its id, and leaves users and files unchanged |
| EntryRepo.Delete | models/entry.py:48-53 | deleting keeps exactly the entries with another id, in order, and reports success |
| EntryRepo.GetById | models/entry.py:55-64 | the lookup returns the first entry with the id, or None |
| EntryRepo.SaveThenGetById | models/entry.py:28-64 | after a save the saved entry is found by its id, and lookups of other ids are unchanged |
| EntryRepo.DeleteThenGetById | models/entry.py:48-64 | after a delete no entry with the id remains, and every other entry keeps its multiplicity |
| EntryRepo.SortNewestFirst | models/entry.py:75 | the in-place sort leaves the array ordered by creation time descending and a permutation of its old contents |
| EntryRepo.SelectedExactly | models/entry.py:70-73 | an entry is selected exactly when it has the user and, if a file id is given, that file, with its multiplicity kept |
| EntryRepo.GetUserEntries | models/entry.py:66-76 | the result is a permutation of the user's (and file's) entries, sorted newest first |
| FileRepo.NewFile | models/file.py:8-15 | a new file has the given owner, the default name, icon and colour, and both timestamps equal to now |
| FileRepo.Save | models/file.py:28-46 | saving upserts the file by id, returns its id, and leaves users and entries unchanged |
| FileRepo.Delete | models/file.py:48-57 | deleting removes the file and every entry of that file in one write, keeps everything else in order, and leaves users unchanged |
| FileRepo.GetById | models/file.py:59-68 | the lookup returns the first file with the id, or None |
| FileRepo.UserFilesExactly | models/file.py:70-74 | the user's files are exactly those with that owner, in document order |
| FileRepo.EntriesCount | models/file.py:76-80 | the count of a file's entries is at most the number of entries |
| FileRepo.CountAfterAppend | models/file.py:76-80 | appending an entry raises the count of exactly its own file by one |
| FileRepo.DeleteCascades | models/file.py:54 | after the cascade the deleted file has no entries, and every other file keeps its count |
| FileRepo.DeleteThenGetById | models/file.py:52 | after a delete no file with the id is found |
| FileRepo.SaveThenGetById | models/file.py:28-68 | after a save the file is found by its id, and lookups of other ids are unchanged |
| UserRepo.FullNameShape | models/user.py:67 | the full name has no surrounding whitespace, and is "first last", "first" or "last" when the parts are trimmed |
| UserRepo.NoBreakSpaceStripped | models/user.py:67 | a no-break space at the end of the first name is stripped: "x\u00a0" and "" give "x" |
| UserRepo.FullNameOfFirstOnly | models/user.py:67 | with an empty last name the full name is the trimmed first name |
| UserRepo.FullNameOfLastOnly | models/user.py:67 | with an empty first name the full name is the trimmed last name |
| UserRepo.User.constructor | models/user.py:11-25 | a new user has empty profile fields, the default avatar, the default settings and both timestamps equal to now |
| UserRepo.User.FromRecord | models/user.py:83-84 | a user rebuilt from a stored record yields that record with its full name recomputed |
| UserRepo.User.ToDict | models/user.py:61-75 | the dictionary keeps the id and email, and its full name is the stripped join of its first and last names |
| UserRepo.User.Save | models/user.py:44-59 | saving upserts the user by id, returns its id, and leaves files and entries unchanged |
| UserRepo.User.UpdateLastLogin | models/user.py:99-102 | only the last-login time changes, to now, and the user is saved |
| UserRepo.User.GetStorageUsage | models/user.py:104-119 | the usage is twice the serialised length of each of the user's entries, plus the avatar file's size only if the avatar is custom and the file exists |
| UserRepo.User.GetFormattedStorage | models/user.py:121-132 | the formatted usage is the size formatter applied to that usage |
| UserRepo.DefaultAvatarUsageEven | models/user.py:111-114 | with the default or an empty avatar the usage is even |
| UserRepo.UsageAgreesAfterUpload | models/user.py:114-117 | after an upload the avatar URL leads to the avatar file, so the usage counts its size |
| UserRepo.GetById | models/user.py:77-86 | the user with the id is returned, built from its record, or null when there is none |
| UserRepo.GetByEmail | models/user.py:88-97 | the first user in document order with the email is returned, or null |
| UserRepo.SaveThenGetById | models/user.py:44-86 | after a save the user is found by its id with the saved fields |
| StorageManager.AvatarUrlLeadsToPath | utils/storage.py:59-64 | the returned URL, stripped of its leading '/', is the path the avatar was written to |
| StorageManager.SaveAvatarThenSize | utils/storage.py:58-64 | the avatar path then holds the written size, every other path is unchanged, and the URL leads to that path |
| StorageManager.DeleteOldAvatar | utils/storage.py:52-56 | the avatar file is gone and every other file remains |
| StorageManager.FootprintEven | utils/storage.py:34-35 | the entries' contribution is even |
| StorageManager.FootprintAtLeast | utils/storage.py:34-35 | each of the user's entries contributes twice its serialised length |
| StorageManager.GetUserStorageUsage | utils/storage.py:29-39 | the loop sums twice the serialised length over the user's entries only, plus the size of `<id>.jpg` when it exists |
| StorageManager.UnitOf | utils/storage.py:42-50 | exactly one unit is chosen: B below 1024, KB below 1024², MB below 1024³, GB otherwise |
| StorageManager.Scale | utils/storage.py:46-50 | each unit divides by a positive power of 1024 |
| StorageManager.FormatSizeSmall | utils/storage.py:43-44 | a size below 1024 renders as its decimal digits followed by " B" |
| StorageManager.FormatSizeLarge | utils/storage.py:45-50 | a larger size renders as the value in its unit rounded to one decimal, within half a tenth, followed by the unit |
| StorageManager.FormatSizeExamples | utils/storage.py:42-50 | 0 → "0 B", 1023 → "1023 B", 1536 → "1.5 KB", 1048576 → "1.0 MB" |
| FileManager.FileSize | utils/file_manager.py:54-58 | a missing path has size 0; an existing one has its recorded size |
| FileManager.BackupNameMatches | utils/file_manager.py:30-32 | the new copy's name matches the pattern the rotation lists |
| FileManager.WithCopy | utils/file_manager.py:31 | after the copy the listing holds the new name and every earlier name, and nothing else |
| FileManager.BackupDir.constructor | utils/file_manager.py:26 | the backup directory holds the given listing |
| FileManager.BackupData | utils/file_manager.py:21-35 | with no data file nothing changes; otherwise the copy is added and exactly the doomed (oldest) backups are deleted |
| FileManager.DeleteAll | utils/file_manager.py:34-35 | deleting one by one removes exactly the doomed names and keeps the rest in order |
| FileManager.NoRotationUpToTen | utils/file_manager.py:33 | with at most ten backups none is deleted |
| FileManager.SplitOfSorted | utils/file_manager.py:32-34 | the sorted backups split into the deleted prefix and the kept suffix of at most ten |
| FileManager.RotationKeepsOnlySpared | utils/file_manager.py:32-35 | every backup left after the rotation is one of the ten greatest by name |
| FileManager.RotationDeletesOldest | utils/file_manager.py:32-35 | every deleted backup sorts before every kept one |
| FileManager.RotationKeepsAtMostTen | utils/file_manager.py:32-35 | after the rotation at most ten backups remain |
| FileManager.AvatarDir.constructor | utils/file_manager.py:40 | the avatar directory holds the given files and modification times |
| FileManager.ActiveIds | utils/file_manager.py:45-46 | the active ids are exactly the ids of the users in the document |
| FileManager.ActiveAvatarsSurvive | utils/file_manager.py:47-51 | an active user's avatar is never deleted, and keeps its modification time |
| FileManager.CleanOldAvatars | utils/file_manager.py:38-51 | with no directory nothing changes; otherwise exactly the `.jpg` files of inactive ids older than the cutoff are deleted |
| Stats.SliceOf | models/stats.py:8-15 | the slice holds the user found by id and exactly the user's entries and files |
| Stats.CheckedAtMostItems | models/stats.py:45-47 | a checklist has at most as many checked items as items |
| Stats.DoneAtMostTasks | models/stats.py:39-48 | an entry's completed tasks are at most its tasks |
| Stats.CompletedAtMostTotal | models/stats.py:30-48 | completed tasks never exceed total tasks |
| Stats.CountTasks | models/stats.py:30-37 | the nested loop sums the item counts of the checklist elements |
| Stats.CountCompletedTasks | models/stats.py:39-48 | the nested loop counts the checked checklist items |
| Stats.RateBounds | models/stats.py:50-56 | the rate is 0 with no tasks, at most 100.0, and exactly 100.0 when every task is done |
| Stats.GetCompletionRate | models/stats.py:50-56 | the rate is the completed share in tenths of a percent, rounded, 0 when there are no tasks, at most 100.0 |
| Stats.AccountAge | models/stats.py:58-64 | no user gives 0; otherwise the whole number of days since creation, never negative for a past creation |
| Stats.Latest | models/stats.py:70-71 | the latest creation time belongs to an entry and is no earlier than any entry's |
| Stats.GetLastActive | models/stats.py:66-80 | no entries, today, yesterday or n days ago, decided by the days since the latest entry |
| Stats.GetBasicStats | models/stats.py:17-28 | the basic figures are the counts, the rate, the formatted storage ("0 B" with no user), the account age and the last activity |
| Stats.Moods | models/stats.py:84 | each entry contributes its mood, or '😐' when it has none |
| Stats.MoodDistribution | models/stats.py:82-85 | the mood counts sum to the number of entries |
| Stats.MoodCountIsEntryCount | models/stats.py:82-85 | each mood's count is the number of entries with that mood |
| Stats.RecentDays | models/stats.py:93-96 | only entries on or after the window's first day are counted, and at most one day per entry |
| Stats.WindowStartIsDaysBefore | models/stats.py:90-91 | the window starts `days` calendar days before today |
| Stats.HistogramCounts | models/stats.py:96-97 | the histogram's keys are exactly the counted days, each with its number of entries |
| Stats.ActivityByDay | models/stats.py:87-99 | the loop builds the per-day histogram of the entries in the window |
| Stats.RecentDaysCount | models/stats.py:93-97 | a day in the window occurs once per entry created that day; a day before the window does not occur |
| Stats.ActivityCounts | models/stats.py:87-99 | every key lies in the window; a day in the window is a key exactly when some entry was created that day, and its count is the number of such entries; the counts sum to at most the entries |
| Stats.TypeNamesCount | models/stats.py:103-109 | the per-type dictionary has exactly five keys |
| Stats.TypeNameIsKnown | models/stats.py:113-115 | only the five recognised types are counted; unrecognised elements are ignored |
| Stats.TallyElements | models/stats.py:112-115 | each key's count grows by the number of the entry's elements of that type; the keys stay the same |
| Stats.EntriesByType | models/stats.py:101-117 | the result has exactly the five keys, each holding the number of elements of that type |
| Stats.FiveInAtMost | models/stats.py:111-115 | an entry's per-type counts sum to at most its number of elements |
| Stats.TypeCountsAtMostElements | models/stats.py:101-117 | the per-type counts sum to at most the number of elements |
| Stats.Figures | models/stats.py:122-175 | the figures the achievements test are the entry count, completed tasks, problem and achievement counts and file count |
| Stats.GetAchievements | models/stats.py:119-185 | the achievements are exactly the catalogue badges whose threshold is met, in catalogue order |
| Stats.CatalogueIds | models/stats.py:124-183 | the catalogue holds the six badges in source order |
| Stats.AchievementsShape | models/stats.py:119-185 | at most six badges, in catalogue order, each qualifying; entry_50 implies entry_10 |
| Stats.ScoreBounds | models/stats.py:187-206 | the score is the sum of the five capped terms, at most 100, and at least 15 once five types are counted |
| Stats.ScoreMonotoneInKinds | models/stats.py:200-201 | counting more types never lowers the score |
| Stats.GetProductivityScore | models/stats.py:187-206 | the score uses five types whatever the entries hold, so it lies in 15..100 |
| Stats.EmptyUserScoresFifteen | models/stats.py:200-201 | a user with no entries and no files scores 15 |
| StatsCalculator.KindsUsedBounds | utils/stats_calculator.py:101 | the number of non-zero types is at most five, and zero with no entries |
| StatsCalculator.GetProductivityScore | utils/stats_calculator.py:93-105 | the score counts only the non-zero types, and is at most 100 |
| StatsCalculator.EmptyUserScoresZero | utils/stats_calculator.py:93-105 | a user with no entries and no files scores 0 |
| StatsCalculator.CalculatorScoreAtMostStats | utils/stats_calculator.py:101-102 | the calculator's score never exceeds the models' score, and falls 15 short when no type is used |
| StatsCalculator.Days | utils/stats_calculator.py:110 | each entry contributes the calendar day of its creation |
| StatsCalculator.RunEndingAt | utils/stats_calculator.py:113-118 | the run ending at a position is between 1 and its length so far |
| StatsCalculator.LongestRun | utils/stats_calculator.py:111-119 | the longest run so far is between 1 and the prefix length |
| StatsCalculator.RunEndingAtClimbs | utils/stats_calculator.py:114-115 | the run ending at a position climbs by exactly one day at each step |
| StatsCalculator.RunEndingAtLongest | utils/stats_calculator.py:114-118 | no climbing run ending at a position is longer than the computed one |
| StatsCalculator.LongestRunAttained | utils/stats_calculator.py:113-119 | the longest run is realised by some climbing run |
| StatsCalculator.LongestRunIsLongest | utils/stats_calculator.py:113-119 | every climbing run is at most the longest run |
| StatsCalculator.StreakOf | utils/stats_calculator.py:107-119 | the streak is 0 exactly for no dates, and between 1 and the number of dates otherwise |
| StatsCalculator.StreakIsLongestClimb | utils/stats_calculator.py:110-119 | the streak is the length of the longest run of adjacent dates one day apart |
| StatsCalculator.LongestRunScan | utils/stats_calculator.py:111-119 | the loop on `streak` and `max_streak` computes the streak |
| StatsCalculator.WeeklyStreak | utils/stats_calculator.py:107-119 | the weekly streak is 0 exactly with no entries, and between 1 and the entry count otherwise |
| StatsCalculator.GetWeeklyStreak | utils/stats_calculator.py:107-119 | the method returns the streak of the sorted entry days |
| StatsCalculator.SortOfSorted | utils/stats_calculator.py:110 | sorting already sorted days changes nothing |
| StatsCalculator.DuplicateDateStreak | utils/stats_calculator.py:113-118 | the days 1, 2, 2, 3 give a streak of 2 |
| StatsCalculator.SortedDaysOfExample | utils/stats_calculator.py:110 | entries on days 1, 2, 2, 3 sort to those days and cover three consecutive days |
| StatsCalculator.SortedExample | utils/stats_calculator.py:110 | the days 1, 2, 2, 3 are already sorted |
| StatsCalculator.SameDayEntryResetsStreak | utils/stats_calculator.py:110-118 | entries on days 1, 2, 2, 3 cover three consecutive days, yet the streak is 2 |
| StatsCalculator.Dedup | utils/stats_calculator.py:110 | deduplication keeps the set of days and the last day, and never lengthens the list |
| StatsCalculator.DedupIncreasing | utils/stats_calculator.py:110 | deduplicating sorted days gives strictly increasing days |
| StatsCalculator.ConsecutiveDaysAdjacent | utils/stats_calculator.py:114 | in strictly increasing days, a block of consecutive days sits at adjacent positions |
| StatsCalculator.ClimbValues | utils/stats_calculator.py:114 | along a climbing run each day is the first day plus its offset |
| StatsCalculator.WeeklyStreakDistinct | utils/stats_calculator.py:107-119 | the deduplicating streak is 0 exactly with no entries |
| StatsCalculator.DistinctDays | utils/stats_calculator.py:110 | the distinct days are strictly increasing and are exactly the days with an entry |
| StatsCalculator.DistinctStreakIsLongest | utils/stats_calculator.py:107-119 | every run of days each with an entry is at most the deduplicating streak |
| StatsCalculator.DistinctStreakAttained | utils/stats_calculator.py:107-119 | some run of that many consecutive days each has an entry |
| StatsCalculator.GetWeeklyStreakDistinct | utils/stats_calculator.py:107-119 | the loop over the distinct days computes the deduplicating streak |
| StatsCalculator.SameDayEntryKeepsDistinctStreak | utils/stats_calculator.py:110-118 | with deduplication, entries on days 1, 2, 2, 3 give a streak of 3 |
| StatsCalculator.MoodVarietyBounds | utils/stats_calculator.py:121-123 | the number of distinct moods is at most the entry count, and 0 exactly with no entries |
| StatsRoutes.LevelOf | api/stats_routes.py:114 | the level is excellent iff score ≥ 80, good iff 60..79, average iff 40..59, otherwise needs improvement |
| StatsRoutes.GatherFacts | api/stats_routes.py:108-131 | the facts are the completed tasks, entries, earned achievements, rate and number of type keys |
| StatsRoutes.ListStrengths | api/stats_routes.py:119-124 | the strengths are appended in order exactly when their strict thresholds are passed |
| StatsRoutes.ListWeaknesses | api/stats_routes.py:126-131 | the weaknesses are appended in order exactly when their strict thresholds are passed |
| StatsRoutes.GetProductivity | api/stats_routes.py:98-136 | the analysis holds the models' score, its level, and the strengths and weaknesses that apply |
| StatsRoutes.RemarksExactly | api/stats_routes.py:119-131 | each strength and weakness is listed exactly when its condition holds |
| StatsRoutes.VarietyWeaknessNeverListed | api/stats_routes.py:130-131 | the content-variety weakness is never listed, because the type counts always have five keys |
| StatsRoutes.NoRemarkBelowFive | api/stats_routes.py:130-131 | with five type keys the variety weakness does not apply |
| StatsRoutes.RemarkListed | api/stats_routes.py:119-131 | a remark is in the filtered list exactly when its condition holds |
| StatsRoutes.StorageInfo | api/stats_routes.py:79-96 | the report holds the usage and the 100 MiB limit; the remaining space is the plain difference, negative exactly when over quota |
| StatsRoutes.StorageInfoBounds | api/stats_routes.py:138-148 | within quota the percentage is at most 100.0, and exactly 100.0 at quota; under 1 KiB left, the remaining text is "<n> B" |
| AuthRoutes.Extension | api/auth_routes.py:16 | the extension is the text after the last '.', or the whole name when there is none |
| AuthRoutes.AllowedFileSpec | api/auth_routes.py:11-16 | a name is allowed iff it contains '.' and the lower-cased text after the last '.' is png, jpg, jpeg, gif or webp |
| AuthRoutes.FillForm | api/auth_routes.py:63-67 | the new user takes the form's names, email, phone and about; id, avatar, settings and timestamps are unchanged |
| AuthRoutes.NewUser | api/auth_routes.py:62-80 | the new user carries the form's fields, and the avatar URL and file only when an accepted image was optimised |
| AuthRoutes.Register | api/auth_routes.py:39-95 | a missing field is rejected first, then a taken email, both with nothing saved; otherwise the new user is upserted and the other collections are unchanged |
| AuthRoutes.RegisteredEmailIsTaken | api/auth_routes.py:55-60 | once registered, the email is taken, so registering it again is rejected |
| AuthRoutes.Merge | api/auth_routes.py:161-170 | only the fields present in the request change; id, email, avatar and timestamps are kept; the full name follows the names |
| AuthRoutes.SettingsMerged | api/auth_routes.py:169-170 | request keys overwrite, every other existing setting is preserved, and no other key appears |
| AuthRoutes.EmptyUpdateKeepsUser | api/auth_routes.py:161-172 | an update with no fields changes nothing but the recomputed full name |
| AuthRoutes.ApplyUpdate | api/auth_routes.py:161-170 | the field assignments produce the merged user |
| AuthRoutes.UpdateNames | api/auth_routes.py:161-164 | the first and last name are set when the body has them; every other field is unchanged |
| AuthRoutes.UpdateDetails | api/auth_routes.py:165-170 | phone and about are set when given, the settings are merged with the body's; the other fields are unchanged |
| AuthRoutes.UpdateUser | api/auth_routes.py:148-185 | an unknown user changes nothing; otherwise the merged user is upserted and files and entries are unchanged |
| AuthRoutes.ReplaceAvatar | api/auth_routes.py:224-236 | after the replacement the avatar path holds the new file's size |
| AuthRoutes.ReplaceAvatarFrame | api/auth_routes.py:224-236 | other files keep their size, and an existing custom old avatar is removed |
| AuthRoutes.StoreAvatar | api/auth_routes.py:224-238 | the file is replaced, and only the avatar URL changes, to `/public/avatars/<id>.jpg` |
| AuthRoutes.UpdateAvatar | api/auth_routes.py:187-252 | the errors come in source order, each with nothing changed; on success the old avatar is replaced, the URL set and the user saved |
| Clock.TwelveHour | app.py:90-97 | the shown hour is in 1..12 and agrees with the hour of day modulo 12; it is 12 exactly at midnight and noon |
| Clock.TwelveHourInjective | app.py:86-99 | the shown hour and the suffix determine the hour of day |
| Clock.ConvertHour | app.py:86-97 | the step-by-step reassignment computes the 12-hour hour and its suffix |
| Clock.ClockTextFields | app.py:99 | the text reads back as 1-2 hour digits, ':', two minute digits, a space and the suffix |
| LegacyApp.LoadData | app.py:18-26 | a missing or unreadable document loads as the default empty files and entries |
| LegacyApp.LegacyStore.Load | app.py:18-26 | the store holds exactly the loaded document |
| LegacyApp.OrDefault | app.py:48-50 | a request value that is present is used, otherwise the default |
| LegacyApp.CreateFile | app.py:41-57 | the new file takes the request's fields or the defaults, is appended, and entries are unchanged |
| LegacyApp.UpdatedFile | app.py:64-67 | each present field overrides the file's, and the update time becomes now |
| LegacyApp.UpdateFirstFrame | app.py:64-69 | only the first matching record changes; with no match nothing does |
| LegacyApp.UpdateFirstByScan | app.py:64-71 | the loop changes the first match and returns it, or returns nothing when there is none |
| LegacyApp.UpdateFile | app.py:59-71 | no matching file gives not-found and no change; otherwise the first match is merged and refreshed, and entries are unchanged |
| LegacyApp.DeleteFile | app.py:73-79 | the file and every entry of that file are removed, the rest keep their order, and success is reported even if nothing matched |
| LegacyApp.DeleteFileRemovesFile | app.py:76 | no file with the id remains, and others keep their multiplicity and order |
| LegacyApp.DeleteFileCascades | app.py:77 | no entry of the file remains, and others keep their multiplicity and order |
| LegacyApp.CreateEntry | app.py:81-112 | a request without a file id is refused; otherwise exactly one entry is appended, with the 12-hour time, the date and the request's fields or defaults |
| LegacyApp.CreateEntryGrowsByOne | app.py:110 | appending grows the entries by exactly one and keeps the earlier ones |
| LegacyApp.UpdatedEntry | app.py:121 | each present field of the update overrides the entry's |
| LegacyApp.EmptyEntryUpdate | app.py:121 | an empty update leaves the entry unchanged |
| LegacyApp.UpdateEntry | app.py:114-125 | no matching entry gives not-found and no change; otherwise the first match is merged, and files are unchanged |
| LegacyApp.DeleteEntry | app.py:127-132 | every entry with the id is removed, the rest keep their order, and success is reported |
| LegacyApp.DeleteEntryRemovesAll | app.py:130 | no entry with the id remains, and others keep their multiplicity and order |
| Script.ArabicDigit | static/js/script.js:27-28 | an ASCII digit d becomes the d-th Arabic-Indic digit; any other character is kept |
| Script.ToArabicNumber | static/js/script.js:26-29 | the conversion keeps the length and maps each character independently |
| Script.NoAsciiDigitsLeft | static/js/script.js:26-29 | no ASCII digit is left, and in text without Arabic-Indic digits exactly the former digit positions hold one |
| Script.ToArabicNumberRoundTrip | static/js/script.js:26-29 | on text without Arabic-Indic digits, reading the digits back restores the text |
| Script.NumberInArabicDigits | static/js/script.js:26-29 | a number converts to as many Arabic-Indic digits as it has decimal digits |
| Script.ReplaceDigitsIsToArabicNumber | static/js/script.js:205 | replacing digit by digit equals converting the whole text |
| Script.FormatTimeMatchesServer | static/js/script.js:197-206 | the shown hour is in 1..12 and equals the server's, the suffix is the same, and the text is the server's clock text in Arabic-Indic digits |
| Script.FormatTimeHasNoAsciiDigits | static/js/script.js:204-205 | the formatted time contains no ASCII digit and is as long as the server's text |

## Left out

- File I/O: opening, JSON (de)serialisation, `exists`, `copy2`, `unlink`, `stat`. The document is in-memory state and a disk is a map from path to size. A parse failure is the `None` case of `LoadData`.
- The serialised length of an entry is an arbitrary function. `json.dumps` is not modelled.
- `datetime.now()`, ISO parsing and `uuid4()` are parameters. Dates are integer seconds, a calendar day is `t / 86400`, and ISO-string order is numeric order.
- Float rounding: `round(x, 1)` and `:.1f` are modelled exactly, in tenths with round-half-even on the exact quotient. Binary floating-point error is not modelled.
- Text.Lower: lower-cases ASCII letters only; Python's Unicode case mapping is not modelled.
- Image processing (`optimize_image`, PIL) is an optional resulting byte size. `ensure_default_avatar` and `create_user_folder_structure` only create folders and a picture.
- `secure_filename` is imported but unused in the modelled handlers.
- Flask routing, JSON responses, status codes and the generic exception handlers that answer 500 are not modelled. The login and get-user routes and the entry and file routes only call the modelled repositories.
- AuthRoutes.Merge: request keys other than first_name, last_name, phone, about and settings are not modelled; the handler ignores them.
- LegacyApp.UpdatedFile and LegacyApp.UpdatedEntry: `dict.update` accepts arbitrary JSON keys. Only the record's own fields are modelled, so an update cannot add new keys.
- LegacyApp.LoadData: `DEFAULT_DATA.copy()` is shallow, so appends to a defaulted document alias the module's constant. The model returns a fresh value.
- EntryRepo.GetUserEntries: Python's sort is stable. The model proves a sorted permutation but does not fix the order of entries with equal creation times.
- Stats.MoodDistribution: the `Counter` dictionary is modelled as a multiset of moods.
- Stats.ActivityByDay: keys are day numbers rather than ISO date strings.
- UserRepo.UsageAgreesAfterUpload and AuthRoutes.NewUser: the avatar written at `public/avatars/<id>.jpg` relative to the working directory is taken to be the file `utils/storage.py` measures under `BASE_DIR`. This holds only when the process runs from the package's base directory; another working directory is not modelled.
- `StatsRoutes.StorageInfo`: "100 MB" is a literal in the source and is modelled as one.
- Concurrency: every operation is a whole-document read-modify-write with no locking. Operations are modelled as sequential.
- The DOM, fetch and storage parts of the browser script, including `showDate`, are not modelled.
- Default-folder creation and the default-avatar drawing are not modelled (foreign library calls).

## Findings

| source | as written | input that shows it | evidently intended | confidence | as-written member | corrected member |
|---|---|---|---|---|---|---|
| models/stats.py:200 | `len(self.get_entries_by_type())` counts the dictionary's keys, always 5, so the types term is always 15 | a user with no entries and no files scores 15 | count only the types that occur, as utils/stats_calculator.py:101 does, so that user scores 0 | not executed | Stats.EmptyUserScoresFifteen | StatsCalculator.EmptyUserScoresZero |
| utils/stats_calculator.py:110-118 | the sorted dates are not deduplicated, so a second entry on the same day resets the run | entries on days 1, 2, 2, 3 give a streak of 2 | the longest run of consecutive days with an entry, 3 here | not executed | StatsCalculator.SameDayEntryResetsStreak | StatsCalculator.DistinctStreakIsLongest |
