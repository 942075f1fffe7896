# SIF fix engine in Dafny

SIF ("Steam Icons Fixer") makes Steam games show their own icon in Linux
desktop docks and launchers. It does this by writing a hidden `.desktop`
entry for each installed game whose window class (`StartupWMClass`) is known.
When a game window has no usable class, SIF adds a helper call to the game's
Steam launch options instead. The helper renames the window by its title.

This project models the part of `sif.py` that decides and performs those
fixes. It covers:

- **Installed games:** reading app manifests into the installed-games
  dictionary and ordering it by numeric app id.
- **Proton detection:** finding Proton games through `get_from_dict` on
  Steam's `config.vdf`.
- **Per-game decision:** the Proton class `steam_app_<id>`, then a
  `wm_classes` record (one class, or a list of `class=name` aliases), then a
  `wm_names` record (a launch-option fix).
- **Launch-option patch and restore:** removing every match of
  `&\s/.*fix-wm-class\.sh.*?;` and appending one fresh helper call. The
  model uses a matcher written for this one pattern, with Python's
  left-to-right, greedy-then-lazy backtracking semantics.
- **Desktop entries:** the eight-line template, and the report buffer that
  prints each report line once.
- **Flags and the loop:** the `--single` filter, the decision to look for a
  running Steam, and the loop that applies all of this game by game.

It also models the database test suite (`tests.py`) as a validity predicate
on the database.

Modules, one per file:

- **`Wrappers`:** `Option`, and Python exceptions as `Result`.
- **`PyStrings`:** `in`, `split`, `lower`, `replace`, `%7s` and `int()` on
  strings.
- **`Sorting`:** a stable sort, standing in for `sorted`.
- **`FixDatabase`:** the loaded `database.json`.
- **`DatabaseValidity`:** the test suite as a predicate.
- **`NestedDict`:** `get_from_dict` and Proton detection.
- **`LaunchOptions`:** the pattern, `Strip` and `Patch`, and the `LocalConfigs`
  class whose methods are `fix_launch_option` and `restore_launch_options`.
- **`DesktopEntry`:** the template, report lines, and the `Emitter` class
  holding `print_buffer` and the written files.
- **`Resolver`:** the per-game decision `Classify`.
- **`Fixer`:** manifests, sorting, `--single`, the Steam check, and the
  `FixGames` loop.

Where the documented behaviour of the program and its code differ, the
model follows the code:

- **Patching is not idempotent in general.** When the text left after
  removing old injections contains `&`, a whitespace character and `/`,
  patching again can swallow user text (`PatchTwiceCanEraseUserText`).
  Removing injections twice can also remove more than removing once
  (`StripTwiceCanRemoveMore`), because `\s` also matches a line break.
  Idempotence is proved under the condition that rules these cases out
  (`PatchIdempotent`, `FixTwiceIsFixOnce`).
- **A plain `wm_classes` string names the file after the catalog name.**
  The file name comes from the catalog name with spaces hyphenated, not
  from the class (`ClassStringUsesCatalogName`).
- **`--pretend` still patches launch options.** Only the desktop files are
  skipped (`PretendStillPatches`, `DesktopEntry.Write`).
- **`--single` with `--proton` can affect every game.** When the named game
  is not fixable, the filter is skipped, and every fixable game is given
  the Proton class (`SingleFilterCases`, `SingleProtonMarksEveryGame`).

## Model

| member | source | states |
|---|---|---|
| PyStrings.Contains | sif.py:89 | `t in s` holds exactly when `t` occurs at some index of `s` |
| PyStrings.Split | sif.py:685-686 | `str.split(d)` gives at least one field and no field contains the separator |
| PyStrings.SplitOfJoin | sif.py:137-147 | splitting lines joined by a separator that none contains gives the lines back |
| PyStrings.FirstTwoFields | sif.py:684-686 | a string containing `=` has at least two fields; field 0 is the text before the first `=` and field 1 the first field of the rest |
| PyStrings.Lower | sif.py:290 | `key.lower()` keeps the length and lowers each character |
| PyStrings.Replace | sif.py:669 | `replace(" ", "-")` keeps the length and replaces exactly the spaces |
| PyStrings.PadLeft | sif.py:120 | `%7s` right-aligns: the text ends the result and only spaces precede it, up to width 7 |
| PyStrings.ParseInt | tests.py:15 | `int()` raises only `ValueError`; a result comes from an optional sign followed by ASCII digits, and a negative one from a leading `-` |
| PyStrings.ParseIntOfIntToString | tests.py:15 | `int()` reads back every integer's decimal numeral |
| Sorting.Sort | sif.py:537 | `sorted` with an integer key yields an ordered permutation of its input |
| Sorting.SortIsStable | sif.py:537 | elements with equal keys keep their input order |
| Sorting.SortFixesExactlySorted | tests.py:16-18 | a list equals its sorted copy exactly when it is already ordered |
| FixDatabase.Get | sif.py:677 | `key in obj` and `obj[key]`: a value exactly when some entry has the key, the entry's own value for distinct keys |
| FixDatabase.Partitions | sif.py:640-641 | both partitions are read exactly when both keys exist; otherwise `KeyError` |
| DatabaseValidity.KeysAsInts | tests.py:15 | mapping `int` over the keys succeeds exactly when every key is a numeral, and yields their values in order |
| DatabaseValidity.PartitionSortedIff | tests.py:14-23 | a partition passes exactly when all keys are numerals that are non-decreasing as integers |
| DatabaseValidity.ValidDatabaseHasPartitions | tests.py:11-12 | a database passing the suite lets the fix run read both partitions |
| DatabaseValidity.ValidDatabaseHasOnlyPartitions | tests.py:12 | a database passing the suite has no other top-level key |
| DatabaseValidity.NumericNotLexicographic | tests.py:15-18 | `"99"` before `"100"` passes and the reverse fails: order is numeric |
| NestedDict.GetFromDict | sif.py:284-294 | the loop returns the key-by-key walk: exact key, else lower-cased key, else the default; a string value raises on a hit |
| NestedDict.Step | sif.py:287-292 | one lookup step raises only `TypeError` and only on a string; what it finds is a value of the dictionary it looked in |
| NestedDict.Walk | sif.py:284-294 | an empty key list returns the data itself, and the only exception a lookup raises is `TypeError` |
| NestedDict.WalkAppend | sif.py:286-294 | looking up `a + b` is looking up `a` and then `b` from there; a default or exception ends the lookup |
| NestedDict.ExactKeyFirst | sif.py:287-292 | each step prefers the exact key, then `key.lower()`, then returns the default |
| NestedDict.DetectProtonGames | sif.py:558-572 | the collected Proton games equal the entries of `CompatToolMapping` whose `Name` mentions proton, or the exception |
| NestedDict.CollectProtonGames | sif.py:567-572 | the loop over the mapping collects exactly the entries that mention proton, or raises if any entry does |
| NestedDict.ProtonByName | sif.py:571-572 | an entry with a string `Name` is a Proton game exactly when the name contains `proton` or `Proton` |
| NestedDict.NamelessEntryIsNotProton | sif.py:571 | an entry without `Name` or `name` falls back to `[]` and is never a Proton game |
| LaunchOptions.LazyToSemicolon | sif.py:205 | `.*?;` ends at the first `;` reached without crossing a line break, and fails exactly when there is none |
| LaunchOptions.Backtrack | sif.py:205 | the greedy `.*` places the literal at its rightmost position that lets the rest match |
| LaunchOptions.LineEnd | sif.py:205 | `.*` stops at the first line break or the end |
| LaunchOptions.MatchAt | sif.py:205 | a match found at an index ends strictly after it and within the text |
| LaunchOptions.MatchWithinLine | sif.py:205 | every match keeps the literal on the opener's line and ends at or after the lazy end |
| LaunchOptions.NoMatchAt | sif.py:205 | the matcher fails at an index exactly when the pattern, read as a language, matches nothing there |
| LaunchOptions.MatchAtIsPreferred | sif.py:205 | the matcher returns exactly the end of the match Python's backtracking prefers |
| LaunchOptions.RemoveFromKeepsIff | sif.py:205 | the left-to-right substitution leaves the text unchanged exactly when no match starts anywhere in it |
| LaunchOptions.RemoveFrom | sif.py:205 | the substitution from an index never yields more text than remains after it |
| LaunchOptions.StripUnchangedIff | sif.py:205 | removal leaves a string unchanged exactly when the pattern matches nowhere in it |
| LaunchOptions.Strip | sif.py:205 | `re.sub` with an empty replacement never lengthens the options |
| LaunchOptions.CopiedWithoutOpener | sif.py:205 | text without `&\s/` is copied unchanged |
| LaunchOptions.NoOpenerIsClean | sif.py:205 | a string without `&\s/` has nothing to remove |
| LaunchOptions.InjectionShape | sif.py:207-216 | the injection is `& <path>/fix-wm-class.sh` then the quoted names then `;`, with no `;` or line break in the arguments |
| LaunchOptions.Patch | sif.py:204-216 | the patched options start with the stripped options and end with exactly one injection |
| LaunchOptions.StripRemovesInjection | sif.py:205-216 | removal applied to clean text plus one injection gives back the clean text |
| LaunchOptions.PatchIdempotent | sif.py:201-216 | on clean stripped options, patching twice equals patching once, and removal undoes a patch |
| LaunchOptions.PatchTwiceCanEraseUserText | sif.py:205-216 | user text `& /x` survives removal but a second patch erases it |
| LaunchOptions.StripTwiceCanRemoveMore | sif.py:205 | removing an injection can expose a new match across a line break, so removal is not idempotent |
| LaunchOptions.PatchApp | sif.py:201-216 | one app: other keys are kept, `LaunchOptions` is created if missing, stripped, then ends in the injection |
| LaunchOptions.PatchApps | sif.py:201-202 | only `apps[app_id]` changes, and an unknown app id changes nothing |
| LaunchOptions.RestoreApp | sif.py:231-234 | one app: other keys are kept, `LaunchOptions` is stripped, and the key is never added |
| LaunchOptions.RestoreApps | sif.py:231-234 | every app of a file is restored and the set of apps is unchanged |
| LaunchOptions.RestoreAfterPatch | sif.py:189-235 | restoring after a fix gives the stripped original options |
| LaunchOptions.FixTwiceIsFixOnce | sif.py:189-218 | running the fix twice on every file leaves what one run leaves, on clean options |
| LaunchOptions.RestoreTwiceIsRestoreOnce | sif.py:220-235 | restoring twice is restoring once, when what the first restore leaves has no `&\s/` |
| LaunchOptions.LocalConfigs.FixLaunchOption | sif.py:189-218 | every configuration file is patched for `app_id` and nothing else changes |
| LaunchOptions.LocalConfigs.FixApp | sif.py:201-216 | creating, stripping and appending to `LaunchOptions` in place leaves the app `PatchApp` describes |
| LaunchOptions.LocalConfigs.RestoreLaunchOptions | sif.py:220-235 | every app of every configuration file is restored |
| DesktopEntry.DesktopFileContent | sif.py:136-147 | the written file reads back as the eight template lines, with the name, the icon and launch command for the id, and the class |
| DesktopEntry.ReportLineLayout | sif.py:120-125 | a report line starts with the app id right-aligned in seven columns, a space, and `*` exactly for a launch-option fix |
| DesktopEntry.MarkerSeparatesLines | sif.py:120-128 | the same game with and without the launch-option marker gives two different lines, so both are printed |
| DesktopEntry.QuietLineIgnoresFile | sif.py:120-128 | outside verbose mode the line ignores the file name and class, so aliases sharing a display name are reported once |
| DesktopEntry.Report | sif.py:126-128 | a report line is appended exactly when it is not yet in the buffer, and the buffer only grows |
| DesktopEntry.ReportKeepsDistinct | sif.py:126-128 | the buffer never holds a line twice |
| DesktopEntry.Write | sif.py:130-131 | a pretend run writes nothing; otherwise the entry's path gets the template and no other file changes |
| DesktopEntry.ReportAllLines | sif.py:117-128 | over many calls the buffer keeps its earlier lines, stays duplicate-free, and holds exactly the old lines plus the report lines of the calls |
| DesktopEntry.WriteAllPaths | sif.py:129-131 | over many calls a pretend run writes nothing, and otherwise exactly the calls' paths are added to the files |
| DesktopEntry.RunsAppend | sif.py:117-131 | a sequence of calls split in two is the second part run from where the first ended, for the buffer and for the files |
| DesktopEntry.Emitter.TryToCreateDesktopFile | sif.py:117-131 | the buffer is updated by the dedup rule and the file by the pretend rule |
| DesktopEntry.Emitter.TryToCreateDesktopFiles | sif.py:681-688 | the calls for one game's aliases, in order, act as their sequence |
| DesktopEntry.Emitter.CreateDesktopFile | sif.py:134-148 | the path `<dir>/<file>.desktop` gets the rendered template |
| Resolver.AliasEntry | sif.py:681-688 | a record with `=` gives the class before the first `=` and the second field or the catalog name; without `=` the record is the class; the file is the class hyphenated |
| Resolver.AliasEntries | sif.py:680-688 | one entry per record, in list order |
| Resolver.WindowNames | sif.py:702-706 | the window name is field 0 and the alternative field 1, or empty without `=` |
| Resolver.Classify | sif.py:667-714 | one game's turn raises only `AttributeError`; every entry it creates carries the game's id; a launch-option request is counted and comes with one marked entry |
| Resolver.ProtonTakesPrecedence | sif.py:671-675 | a Proton game, or any game under `--single --proton`, gets one `steam_app_<id>` entry whatever the database says |
| Resolver.UnknownGameProducesNothing | sif.py:671-714 | a game in none of the three produces nothing |
| Resolver.ClassListGivesAliases | sif.py:677-688 | a `wm_classes` list gives one alias entry per record and no launch-option fix |
| Resolver.ClassStringUsesCatalogName | sif.py:690-691 | a `wm_classes` string is the class and the file is named after the catalog name |
| Resolver.NamesStringRequestsFix | sif.py:693-714 | a `wm_names` string requests a fix with exactly `WindowNames(value)`, fields 0 and 1 of `split("=")`, and makes one marked entry whose class is the alternative if non-empty, else field 0 |
| Resolver.RunningSteamSkipsNamesFix | sif.py:697-700 | with Steam running a `wm_names` game is counted and skipped |
| Resolver.ClassifyRaisesOnlyOnNamesList | sif.py:693-702 | the loop raises `AttributeError` exactly for a `wm_names` list reached while Steam is not running |
| Resolver.RequestIsCounted | sif.py:693-707 | a launch-option fix is always counted, and only `wm_names` games are counted |
| Fixer.QuotedField | sif.py:96-98 | `split('"')[3]` exists exactly when the line has at least three quotes, and holds no quote |
| Fixer.ParseManifest | sif.py:92-98 | the line loop yields the id and name of the manifest fold, or `IndexError` |
| Fixer.ParseStopsAtError | sif.py:94-98 | once a line raises, later lines are not read |
| Fixer.ManifestRaisesIff | sif.py:94-98 | a manifest raises exactly when an `"appid"` or `"name"` line has fewer than three quotes |
| Fixer.LastAppIdLineWins | sif.py:95-96 | the last `"appid"` line sets the id |
| Fixer.LastNameLineWins | sif.py:95-98 | the last line that sets the name sets it; `"appid"` on the same line takes precedence |
| Fixer.NoAppIdLineGivesEmptyId | sif.py:92-99 | without an `"appid"` line the id stays empty and the game is not recorded |
| Fixer.ManifestFields | sif.py:92-98 | reading a manifest raises only `IndexError`, and the id and name it yields contain no quote |
| Fixer.Put | sif.py:100 | `found_games[app_id] = app_name`: an existing key keeps its place, a new key goes last |
| Fixer.PutGetsValue | sif.py:100 | after the assignment the key maps to the new name |
| Fixer.PutKeepsOthers | sif.py:100 | every other key reads as before |
| Fixer.PutKeepsDistinct | sif.py:100 | keys stay distinct |
| Fixer.InstalledGames | sif.py:83-101 | collecting the installed games raises only `IndexError`, and yields at most one game per manifest file |
| Fixer.GetInstalledGames | sif.py:83-101 | the file loop yields the installed-games fold over the manifest files, or the first exception |
| Fixer.InstalledStopsAtError | sif.py:86-98 | once a manifest raises, later files are not read |
| Fixer.InstalledGamesKeys | sif.py:83-101 | the installed games have distinct ids, exactly the non-empty ids some `appmanifest…acf` file records |
| Fixer.LastManifestNameWins | sif.py:99-100 | when several manifests record an id, the last one's name is kept |
| Fixer.SortInstalled | sif.py:537 | the games come out as a permutation ordered by integer id, or `ValueError` exactly when an id is not a numeral |
| Fixer.SortedByNumericId | sif.py:537 | consecutive sorted ids are non-decreasing as integers |
| Fixer.SortInstalledIsStable | sif.py:537 | games whose ids have equal value keep their order |
| Fixer.SortInstalledKeepsSortedInput | sif.py:537 | already ordered games are left as they are |
| Fixer.OnlyKey | sif.py:613 | the comprehension keeps only entries with the given key |
| Fixer.OnlyKeyOfDistinct | sif.py:613 | on distinct keys the comprehension keeps exactly the entry of that key |
| Fixer.SingleFilter | sif.py:611-613 | `--single` keeps only entries that were fixable |
| Fixer.SingleFilterCases | sif.py:611-613 | a fixable `--single` game leaves just that game; an empty or unknown one leaves every game |
| Fixer.SteamTerminationRequired | sif.py:643-648 | the loop answers true exactly when some fixable game is in `wm_names` |
| Fixer.SteamDetected | sif.py:650-658 | Steam counts as detected only outside `--pretend` and only when termination is required |
| Fixer.RunStopsAtError | sif.py:667-714 | once the loop raises, later games change nothing |
| Fixer.RunPrefix | sif.py:667-714 | the calls for earlier games come first, in game order |
| Fixer.PlanRun | sif.py:665-714 | the counter counts at most one per game, every launch-option request is counted, and the only exception the loop raises is `AttributeError` |
| Fixer.CounterCountsNamesGames | sif.py:693-697 | the counter is positive exactly when some game is a `wm_names` game, and then Steam had to be looked for |
| Fixer.PretendStillPatches | sif.py:650-658 | under `--pretend`, every `wm_names` string the loop reaches is patched |
| Fixer.RunningSteamPatchesNothing | sif.py:697-700 | with Steam running, no launch option is patched and the loop cannot raise |
| Fixer.SingleProtonMarksEveryGame | sif.py:671-675 | under `--single --proton` every game gets one `steam_app_<id>` entry, nothing is patched or counted |
| Fixer.ClosingNote | sif.py:716-720 | a closing message is printed exactly when the counter is positive |
| Fixer.SteamWarningIffSkipped | sif.py:716-718 | the running-Steam warning appears exactly when Steam was detected and a `wm_names` game was skipped |
| Fixer.FixGames | sif.py:665-714 | the loop's counter, exception, report buffer, desktop files and launch options are those of the game-by-game plan |
| Fixer.ApplyPlan | sif.py:697-714 | one game's fix, entries and counter extend what the earlier games left |

## Left out

- GTK icon-theme lookup and the fixable-games filter built on it (`get_fixable_games`). The fix loop takes the fixable games as input.
- HTTP fetches of game names from the Steam store, and the `--database`, `--icons` and `--games` listings. These are network I/O and console output.
- `steam_detect`: process listing, `SIGTERM` and the interactive wait. Its answer is the `detected` input of `Fixer.SteamDetected`.
- Everything that touches the file system is modelled as values:
  - VDF and JSON loading and dumping;
  - `os.walk` over the libraries: the model takes the manifest files in walk order, already flattened across libraries;
  - library discovery;
  - creating and clearing the desktop directory;
  - `update-desktop-database`.
- The path `UserLocalConfigStore/Software/Valve/Steam/Apps` inside each `localconfig.vdf`. The model starts from the `Apps` map, and a file whose map is missing or empty is an empty map. A file without apps is then left unchanged, as in the code. The warning printed for it is not modelled.
- The value of an app entry other than its string keys: an app is a map from string to string.
- Option parsing, colours, column widths, verbose printing and the `SIGINT` handler.
- `print(line)` itself. Standard output is the sequence `print_buffer` holds.
- Python's full Unicode `str.lower()`: `PyStrings.Lower` lowers only ASCII `A`–`Z`, which covers the ASCII key names `get_from_dict` is given. `\s` (`LaunchOptions.IsSpace`) is the whole set `str.isspace()` accepts.
- `int()` accepting surrounding whitespace, `_` separators and non-ASCII digits: `PyStrings.ParseInt` accepts an optional sign and ASCII decimal digits only.
- DesktopEntry.Write: writing never fails. In the program, a catalog name containing `/` (such as `Fate/EXTELLA`) gives a file name that names a missing subdirectory, so `open` raises `FileNotFoundError`; that ends the loop for every later game and skips the closing note. The model's files are a flat map from path to text with no directories, so it writes that path and carries on.
- Fixer.FixGames: the counter value returned with an exception does not include the raising game's increment. The exception ends the program, so that value is never observed.
- Duplicate keys in JSON objects: loaded objects are taken to have distinct keys, as `json.load` keeps the last one.
