# Package Manager menu-bar plugin, modelled in Dafny

This project models `package_manager.7h.py`, a BitBar plugin that lists the
packages Homebrew, Cask and Pip could upgrade. BitBar is the macOS menu-bar
host that runs the plugin and shows what it prints. The plugin has three
adapters, all subclasses of `PackageManager`. Each adapter:

- asks its command-line tool what is outdated;
- appends one update record per outdated package to its `updates` list;
- formats upgrade commands as BitBar `bash=... paramN=...` attributes.

`print_menu` then prints a header with the total count and one section per
adapter.

The model has five modules:

- `Text`: the Python string built-ins the plugin uses: `strip`, `split`,
  `split(sep, 1)`, `find` and decimal formatting. Each comes with the facts
  the rest of the model needs, and with its inverse where it has one
  (`split` against `join`, decimal formatting against parsing).
- `Ordering`: Python's lexicographic string order, `sorted`, `max` and
  `list.remove`.
- `BitBar`: `bitbar_cli_format`. It is written as the source's loop, proved
  against a specification function, and has lemmas on the attributes it
  produces.
- `Managers`: the upgrade commands and the three `sync` parsers. Each
  parser's output is described by a function over the tool's output.
  `Manager` is a class with a mutable `updates` field. Its sync methods are
  loops proved to append exactly those records.
- `Menu`: the rendering of `print_menu` as a function from adapter states to
  lines, the methods that build it loop by loop, and the whole run.

The tools' outputs are parameters:

- Homebrew gets the already-decoded `outdated --json=v1` records.
- Cask gets the text of `cask list --versions` and a function that stands for
  `cask info <name>`.
- Pip gets the text of `list --outdated`.

A `sync` that would raise in Python (a failed unpack, an `IndexError`, `max`
of an empty list, `.groups()` on a failed match) yields an `aborted` outcome.
The records appended before that point stay in `updates`. Python 2's `map`
is eager, so every sync runs before anything is printed. A sync that raises
therefore ends the run with no output, which `RunMenu` models as `None`.

Two behaviours of the code worth noting:

- Lines 171-172 keep a Cask package only when its `cask info` output
  contains `Not installed`; a package whose info lacks it is taken as up to
  date and skipped. The search covers the whole output, not just its first
  line.
- `Homebrew.update_all_cli` always returns a non-empty command. A Homebrew
  section with at least one record therefore always has an `Upgrade all`
  line.

## Model

| member | source | states |
|---|---|---|
| BitBar.BitBarCliFormat | dotfiles-osx/.bitbar/package_manager.7h.py:92-99 | The `+=` loop returns `bash=<program>` followed by ` param<k>=<k-th argument>` for each argument of the stripped command line. Its invariant ties each prefix of the arguments to the attributes built so far. |
| BitBar.SchemaAttributes | dotfiles-osx/.bitbar/package_manager.7h.py:95-99 | Split on spaces, the result has one field per argument plus one. Field 0 is `bash=<program>` and field k is `param<k>=<k-th argument>`, numbered from 1 in order. |
| BitBar.CommandLineRecovered | dotfiles-osx/.bitbar/package_manager.7h.py:95-97 | The program and the arguments are exactly the space-separated tokens of the stripped command line, and joining them gives that line back. |
| BitBar.AppendArgument | dotfiles-osx/.bitbar/package_manager.7h.py:95-99 | Appending one whitespace-free word to a stripped command line keeps the program. It adds that word as the last argument, and the result gains exactly one attribute numbered after the others. |
| Managers.UpdateAllCliOnlyHomebrew | dotfiles-osx/.bitbar/package_manager.7h.py:134-135 | Only Homebrew has a non-empty upgrade-all command; Cask and Pip return nothing (lines 191-196 and 229-235). |
| Managers.HomebrewUpdateAllIsBareUpgrade | dotfiles-osx/.bitbar/package_manager.7h.py:128-135 | `update_all_cli()` is `update_cli()` with no package, which is `bash=/usr/local/bin/brew param1=upgrade param2=--cleanup`. An empty package name counts as no name. |
| Managers.HomebrewUpdateCliAppendsName | dotfiles-osx/.bitbar/package_manager.7h.py:128-132 | For a whitespace-free name, `update_cli(p)` is the upgrade-all command plus ` param3=<p>`. |
| Managers.CaskUpdateCliShape | dotfiles-osx/.bitbar/package_manager.7h.py:181-189 | For a whitespace-free name, Cask's command is `bash=/usr/local/bin/brew param1=cask param2=install param3=<name>`. |
| Managers.PipUpdateCliShape | dotfiles-osx/.bitbar/package_manager.7h.py:225-227 | For a whitespace-free name, Pip's command is `bash=/usr/local/bin/pip param1=install param2=--upgrade param3=<name>`. |
| Managers.PipUpdateCliWithLocation | dotfiles-osx/.bitbar/package_manager.7h.py:217-227 | A Pip record whose name carries a location after a space gets that location as a fourth argument of `pip install`. |
| Managers.CollectAborts | dotfiles-osx/.bitbar/package_manager.7h.py:121-126 | Processing entries in order fails exactly when some entry raises. |
| Managers.CollectAppendsOnly | dotfiles-osx/.bitbar/package_manager.7h.py:121-126 | The records produced from a prefix of the entries are a prefix of the records produced from all of them: earlier records are never changed. |
| Managers.CollectOnePerEntry | dotfiles-osx/.bitbar/package_manager.7h.py:121-126 | When every entry yields a record, there is one record per entry, in the entries' order. |
| Managers.CollectMembers | dotfiles-osx/.bitbar/package_manager.7h.py:152-179 | Without a failure, the records are exactly those of the entries that yield one. |
| Managers.CollectNext | dotfiles-osx/.bitbar/package_manager.7h.py:152-179 | One more entry ends the run if it raises, adds its record if it yields one, and otherwise changes nothing. |
| Managers.HomebrewRecords | dotfiles-osx/.bitbar/package_manager.7h.py:121-126 | Homebrew's sync fails exactly when some formula lists no installed version. Otherwise it yields one record per formula, in order, with the formula's name and current version and the greatest installed version. |
| Managers.HomebrewHighestInstalled | dotfiles-osx/.bitbar/package_manager.7h.py:125 | Installed versions 1.0, 1.2 and 1.1 give 1.2. |
| Ordering.MaxString | dotfiles-osx/.bitbar/package_manager.7h.py:125 | `max` of a non-empty list is one of its elements, and no element is above it. |
| Ordering.SortStrings | dotfiles-osx/.bitbar/package_manager.7h.py:156-157 | `sorted` returns the same strings (as a multiset), in ascending order. |
| Ordering.RemoveFirst | dotfiles-osx/.bitbar/package_manager.7h.py:159 | `list.remove` drops exactly one occurrence and keeps a sorted list sorted. |
| Ordering.StrLeTotal | dotfiles-osx/.bitbar/package_manager.7h.py:125 | Python's string order is total; `StrLeRefl`, `StrLeAntisym` and `StrLeTrans` make it a total order. |
| Managers.StripNonBlankMembers | dotfiles-osx/.bitbar/package_manager.7h.py:156-157 | A string is kept by the comprehension exactly when it is non-blank and some entry strips to it. |
| Managers.StripNonBlankCount | dotfiles-osx/.bitbar/package_manager.7h.py:156-157 | A non-blank string is kept exactly as many times as there are entries that strip to it. |
| Managers.RemainingIsPool | dotfiles-osx/.bitbar/package_manager.7h.py:156-159 | After sorting and removing `latest`, the entries are sorted. They are all the entries, less one `latest` when there is more than one entry, and they are empty only when there were no entries. |
| Managers.PickVersionChoice | dotfiles-osx/.bitbar/package_manager.7h.py:156-160 | With at least one non-blank entry, the version is the greatest of the chosen entries. |
| Managers.CaskVersionUnknown | dotfiles-osx/.bitbar/package_manager.7h.py:156-160 | The version is `?` when every entry is blank. When no entry is literally `?`, it is `?` only then. |
| Managers.CaskFieldGreatest | dotfiles-osx/.bitbar/package_manager.7h.py:153-160 | On a raw version field with a non-blank entry and no entry `latest`, the version is one of the stripped entries and no stripped entry is above it. |
| Managers.CaskFieldDropsLatest | dotfiles-osx/.bitbar/package_manager.7h.py:153-160 | On a raw version field where one entry strips to `latest` and another non-blank entry exists, the version is not `latest`, is one of the stripped entries, and no other stripped entry is above it. |
| Managers.CaskFieldLoneLatest | dotfiles-osx/.bitbar/package_manager.7h.py:153-160 | On a raw version field whose only non-blank entries are `latest`, however many, the version is `latest`. |
| Managers.PickVersionLoneLatest | dotfiles-osx/.bitbar/package_manager.7h.py:158-160 | A `latest` with no other version is kept. |
| Managers.PickVersionDropsLatest | dotfiles-osx/.bitbar/package_manager.7h.py:158-160 | A single `latest` among other entries is never chosen; the greatest other entry is. |
| Managers.PickVersionTwiceLatest | dotfiles-osx/.bitbar/package_manager.7h.py:158-160 | `remove` drops only one `latest`, so when `latest` appears twice and sorts above every other entry, it is chosen. |
| Managers.CaskVersionTwiceLatest | dotfiles-osx/.bitbar/package_manager.7h.py:153-160 | The field `1.0, latest, latest` gives `latest`. |
| Managers.CaskVersionNamedBeatsLatest | dotfiles-osx/.bitbar/package_manager.7h.py:153-160 | The field `1.2, latest` gives `1.2`. |
| Managers.CaskVersionOnlyLatest | dotfiles-osx/.bitbar/package_manager.7h.py:153-160 | The field `latest` gives `latest`. |
| Managers.CaskVersionEmptyField | dotfiles-osx/.bitbar/package_manager.7h.py:153-160 | An empty field gives `?`. |
| Managers.GuessVersion | dotfiles-osx/.bitbar/package_manager.7h.py:156-160 | The heuristic as written, with a local list that `remove` shortens, returns the version the lemmas above describe. |
| Managers.InfoLatestVersion | dotfiles-osx/.bitbar/package_manager.7h.py:174 | The latest version exists (and `split(' ')[1]` does not raise) exactly when the info output's first line holds a space. |
| Managers.CaskStep | dotfiles-osx/.bitbar/package_manager.7h.py:153-179 | The loop body for one listing line: it raises on a line without a space, skips a package whose info lacks `Not installed`, raises on a one-word info line, and otherwise records the guessed version and the info's latest version. The collected outcome gains exactly that line's effect. |
| Managers.CaskRecords | dotfiles-osx/.bitbar/package_manager.7h.py:152-179 | Without a failure, Cask's records are exactly the listed packages whose info contains `Not installed`. Each holds the package's name, the heuristic's version and the second word of the info's first line. |
| Managers.CaskEmptyListingAborts | dotfiles-osx/.bitbar/package_manager.7h.py:152-153 | An empty listing fails on the unpack of `''.split(' ', 1)`, so Cask's sync adds nothing and raises. |
| Managers.ParsePipLineFields | dotfiles-osx/.bitbar/package_manager.7h.py:209-212 | A matched line has a non-empty, whitespace-free name and version, and an info with no newline. No later ` - Latest: ` marker can end the info, because the `.*` is greedy. |
| Managers.ParsePipLineShape | dotfiles-osx/.bitbar/package_manager.7h.py:209-212 | A matched line is `name (info) - Latest: version`, followed by nothing or by whitespace. |
| Managers.PipLineRoundTrip | dotfiles-osx/.bitbar/package_manager.7h.py:209-212 | A line assembled that way, with a tail free of `:`, matches and gives back its name, info and version. |
| Managers.PipRecordShape | dotfiles-osx/.bitbar/package_manager.7h.py:214-223 | The record keeps the latest version. Without a comma, the installed version is the whole info and the name is unchanged. With a comma, the installed version is the text before the first comma and the name gains ` (<rest, stripped>)`. |
| Managers.PipRecordsEmpty | dotfiles-osx/.bitbar/package_manager.7h.py:205-207 | Blank output adds nothing and does not fail. |
| Managers.PipAborts | dotfiles-osx/.bitbar/package_manager.7h.py:210-212 | Otherwise Pip's sync fails exactly when some line does not match. |
| Managers.PipRecords | dotfiles-osx/.bitbar/package_manager.7h.py:210-223 | When every line matches, there is one record per line, in order, built from that line's fields. |
| Managers.PipLocationEntry | dotfiles-osx/.bitbar/package_manager.7h.py:209-223 | `name (version, location) - Latest: v` records `name (location)`, `version` and `v`. |
| Managers.PipCustomLocationExample | dotfiles-osx/.bitbar/package_manager.7h.py:209-223 | `foo (1.0, /custom/path) - Latest: 2.0` records `foo (/custom/path)`, `1.0` and `2.0`. |
| Managers.Manager.constructor | dotfiles-osx/.bitbar/package_manager.7h.py:56-58 | A new adapter has no updates. |
| Managers.Manager.SyncHomebrew | dotfiles-osx/.bitbar/package_manager.7h.py:114-126 | `updates` gains exactly Homebrew's records, appended after the old ones, and the result says whether the sync completed. |
| Managers.Manager.SyncCask | dotfiles-osx/.bitbar/package_manager.7h.py:140-179 | `updates` gains exactly Cask's records for the listing, appended after the old ones, and the result says whether the sync completed. |
| Managers.Manager.SyncCaskLines | dotfiles-osx/.bitbar/package_manager.7h.py:152-179 | The loop over the listing lines appends each kept line's record in order and stops at the first line that raises. |
| Managers.Manager.SyncPip | dotfiles-osx/.bitbar/package_manager.7h.py:203-223 | `updates` gains exactly Pip's records, appended after the old ones, and the result says whether the sync completed. The loop body matches each line and folds a location into the name. |
| Managers.Manager.Sync | dotfiles-osx/.bitbar/package_manager.7h.py:114-223 | `sync()` dispatched on the adapter's class. |
| Menu.PrintMenu | dotfiles-osx/.bitbar/package_manager.7h.py:253-274 | The printing loops produce exactly the menu of the adapters as they stand. The `Upgrade all` line is emitted exactly when `update_all_cli()` is non-empty and there are updates. |
| Menu.RenderPackages | dotfiles-osx/.bitbar/package_manager.7h.py:269-274 | The loop produces one package line per record. |
| Menu.PackageLinesInOrder | dotfiles-osx/.bitbar/package_manager.7h.py:269-274 | Package line j is the line of record j. |
| Menu.PackageLineEnds | dotfiles-osx/.bitbar/package_manager.7h.py:270-274 | Every package line ends with ` terminal=false refresh=true`. |
| Menu.SummaryWords | dotfiles-osx/.bitbar/package_manager.7h.py:260-263 | The summary has three words. The first is the record count in decimal, and it reads back as that count; the second is the adapter's class name. |
| Menu.SummaryPlural | dotfiles-osx/.bitbar/package_manager.7h.py:260-263 | The summary ends in `s` exactly when the count is above one, so 0 and 1 are singular. |
| Menu.UpgradeAllOnlyHomebrew | dotfiles-osx/.bitbar/package_manager.7h.py:265-267 | A section has an `Upgrade all` line exactly when it is Homebrew's and has records. That line runs `brew upgrade --cleanup`. |
| Menu.SectionLayout | dotfiles-osx/.bitbar/package_manager.7h.py:257-274 | A section is `---`, the summary, then the `Upgrade all` line exactly when there is one, then exactly the package lines, in record order. |
| Menu.MenuLength | dotfiles-osx/.bitbar/package_manager.7h.py:253-274 | The menu has the header, two lines per adapter, one line per record and the `Upgrade all` lines, so the header's total counts the package lines. |
| Menu.MenuNoManagers | dotfiles-osx/.bitbar/package_manager.7h.py:253-254 | With no active adapter, the output is just `↑0 \| dropdown=false`. |
| Menu.Synced | dotfiles-osx/.bitbar/package_manager.7h.py:244-250 | After syncing, adapter i has kind i and that kind's records. |
| Menu.Run | dotfiles-osx/.bitbar/package_manager.7h.py:238-274 | Creating, syncing and rendering the active adapters prints the menu of their synced states, or nothing when some sync raises. |
| Menu.SyncAll | dotfiles-osx/.bitbar/package_manager.7h.py:244-250 | Each adapter is created with no updates and synced. The result reports a failure exactly when some sync raises; otherwise the adapters hold their records. |
| Menu.EmptyCaskListingPrintsNothing | dotfiles-osx/.bitbar/package_manager.7h.py:152-153 | With Cask active and an empty Cask listing, the run prints nothing. |
| Text.JoinSplit | dotfiles-osx/.bitbar/package_manager.7h.py:97 | Joining the pieces of `split(sep)` gives back the string. |
| Text.SplitJoin | dotfiles-osx/.bitbar/package_manager.7h.py:97 | Splitting a join of separator-free pieces gives back the pieces. |
| Text.SplitOnce | dotfiles-osx/.bitbar/package_manager.7h.py:95 | `split(sep, 1)` unpacks exactly when `sep` occurs, into the text before its first occurrence and the text after it. |
| Text.StripShape | dotfiles-osx/.bitbar/package_manager.7h.py:95 | `strip()` leaves no surrounding whitespace and is empty exactly when the input is all whitespace. |
| Text.ParseNatToString | dotfiles-osx/.bitbar/package_manager.7h.py:260-261 | The printed count reads back as the same number. |

## Left out

- Running the tools is not modelled: `PackageManager.run`, `Popen`, the `brew update` / `brew cask update` calls, and the `Error | color=red` plus `sys.exit` path are process execution. Their outputs are parameters.
- The `active` property is not modelled, because it is a filesystem query. The run takes the list of active adapter kinds as input.
- `json.loads` is not modelled, because it is a foreign parser. Homebrew's sync takes already-decoded formula records.
- BitBarCliFormat: requires the stripped command line to hold a space (`Formattable`, also on `Program`, `Arguments` and `Schema`), so the ValueError that `cmd, params = full_cli.strip().split(' ', 1)` raises on a one-word command is not modelled. Every caller passes a command of at least three words (lines 128-132, 181-189, 225-227), and `FormattableWhen` discharges the requirement for each of them.
- The `re` engine is not modelled. `ParsePipLine` parses `(\S+) \((.*)\) - Latest: (\S+)` by hand, with greedy `(.*)`, `\S` as "not ASCII whitespace" and `.` not crossing a newline. `re.match` anchors only at the start, and that is kept.
- Printing and `.encode('utf-8')` are not modelled: the menu is returned as a sequence of lines. Strings are sequences of code points.
- `strip()` removes ASCII whitespace only, not the wider Unicode set.
- `cask info <name>` is a function parameter, so the model assumes it answers the same for the same name.
- The changelog and BitBar metadata headers are comments and are not modelled.
- CaskVersionUnknown: states "`?` only when every entry is blank" only when no entry is literally `?`, because a literal `?` entry also gives `?`.
- PickVersionDropsLatest: assumes `latest` is listed once, because the code removes only the first `latest` (see PickVersionTwiceLatest); CaskFieldDropsLatest carries the same assumption over to the raw field.
- PipLineRoundTrip: requires a tail free of `:`, so that no later ` - Latest: ` marker can take the greedy match further.
- PipRecords: only states the case where every line matches. PipAborts gives the failing case, and then the records are those of the lines before the first one that does not match.
