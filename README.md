# mac-cleaner: a verified model of the scan-and-clean engine

This project models the engine of `mac_cleaner_2.py`, an interactive macOS
disk cleaner, in Dafny. The engine has two halves:
- the **scan**, which measures a fixed catalogue of cache, log and temporary
  locations, discovers `node_modules` directories under the project roots and
  asks the container engine how much space it could reclaim;
- the **cleanup**, which reads the operator's selection and confirmation and
  then handles every chosen item on its own.

The filesystem is one immutable snapshot (`FsTree.Node`), with these cases:
- a regular file whose `stat` yields a size or fails;
- a directory whose listing succeeds or fails;
- a symbolic link to another node, or a dangling link.

A path is the sequence of its `Path.parts`. `/var/tmp` is `["/", "var", "tmp"]`
and the Docker sentinel `Path("[Docker]")` is `["[Docker]"]`. Whatever the
program learns from outside is a parameter:
- whether `docker` is installed and answers;
- the lines `docker system df` prints, each already decoded from JSON;
- the operator's typed lines;
- during deletion, what each removal or prune did (`Cleanup.ItemWorld`).

The loops of the source are methods, each proved equal to a
specification function:
- `SizeWalk.SafeWalk`/`WalkDir`;
- `Discovery.FindNodeModulesRoots`/`WalkFrom`/`WalkBelow`;
- `Scan.AddIfExists`, `Scan.UserCacheScan`, `Scan.DiscoverCategories`;
- `Docker.GetDockerReclaimableBytes`;
- `Selection.SelectIndices`;
- `Cleanup.DeleteItems`, `Cleanup.InteractiveCleanup`;
- `Display.HumanUnit`.

The properties the program promises are lemmas about those functions. A
category is a class whose item list the scan appends to in place.

The modules are:
- `Wrappers`: Option and Result;
- `FsTree`: the snapshot, path lookup, `exists`/`is_file`/`is_dir`;
- `Text`: `strip`, `lower`, `isdigit`, `int`, `split`;
- `SizeWalk`: `safe_walk`;
- `Discovery`: `find_node_modules_roots`;
- `Docker`: `parse_docker_size` and `get_docker_reclaimable_bytes`;
- `Scan`: `PathItem`, `Category`, `add_if_exists`, the user cache loop and
  `discover_categories`;
- `Selection`: `prompt_select_indices` and `confirm`;
- `Cleanup`: `interactive_cleanup` after the scan;
- `Display`: the unit `human_size` chooses.

Three behaviours of the code are worth stating plainly:
- The Docker category is appended on every scan. It holds 0 bytes when the
  engine is not installed or not running.
- Three inputs make the scan raise an exception that ends it, rather than
  being skipped. They are listed under "## Findings".
- A directory that cannot be listed contributes nothing to a size walk, and
  its siblings are still walked. This is `os.walk` with no error handler.

## Model

| member | source | states |
|---|---|---|
| SizeWalk.SafeWalk | mac_cleaner_2.py:119-143 | `safe_walk(path)` returns the reference totals `PathTotals`: (0, 0) for a missing path or a file whose `stat` fails (`exists()` is then false); (size, 1) for a file; for a directory, the bytes and regular files below it |
| SizeWalk.WalkDir | mac_cleaner_2.py:131-142 | The `os.walk` loop equals `TreeTotals`, the per-entry reference sum. It adds the files listed in each directory, then walks the subdirectories left after pruning symbolic links; a failed `stat` adds nothing |
| SizeWalk.PathTotals | mac_cleaner_2.py:120-127 | A path that does not exist (missing, or a file whose `stat` fails) gives (0, 0); a path that is a file gives (its size, 1) |
| SizeWalk.FilesThenDirs | mac_cleaner_2.py:132-140 | Counting each directory's files first and its walked subdirectories after adds up to the per-entry reference sum; a linked directory counts as neither |
| SizeWalk.LinkedDirectoryIgnored | mac_cleaner_2.py:133 | Adding a symbolic link to a directory, whatever it points to, leaves a directory's totals unchanged |
| SizeWalk.NoFilesNoBytes | mac_cleaner_2.py:137-138 | Bytes are only counted with a file: a walk that counted no file counted no byte |
| SizeWalk.LinkedScenario | mac_cleaner_2.py:119-143 | Files of 100, 200 and 400 bytes (one in a subdirectory) plus a linked directory holding 1000 bytes give (700, 3) |
| Discovery.FindNodeModulesRoots | mac_cleaner_2.py:152-172 | The result is `FoundAll`: the walks of the existing roots, concatenated in root order; a missing root contributes nothing |
| Discovery.WalkFrom | mac_cleaner_2.py:162-171 | One directory visit: past `max_depth`, nothing and no descent; otherwise `dirpath/node_modules` if it is listed, then what the walk finds below the other subdirectories |
| Discovery.WalkBelow | mac_cleaner_2.py:162-171 | The walk continues into every subdirectory except the removed `node_modules` and symbolic links, in listing order |
| Discovery.FoundInWellPlaced | mac_cleaner_2.py:163-169 | Every path reported from a directory extends it and ends in `node_modules`; its parent directory lies at most `max_depth` levels below the search root (the path itself at most `max_depth + 1`) |
| Discovery.FoundInNeverNested | mac_cleaner_2.py:167-171 | No component between the search root and the final `node_modules` is itself `node_modules`: a recorded `node_modules` is never entered |
| Discovery.NoResultInsideAnother | mac_cleaner_2.py:167-171 | No reported path lies inside another reported path |
| Discovery.FoundAllAppend | mac_cleaner_2.py:158-169 | Results are grouped root by root: searching `a + b` gives the results of `a` followed by those of `b` |
| Discovery.FoundAllBelowRoots | mac_cleaner_2.py:158-169 | Every result ends in `node_modules` and extends a search root that exists; its parent directory lies at most `max_depth` levels below that root (the path itself at most `max_depth + 1`) |
| Discovery.WalkReachesDir | mac_cleaner_2.py:162-169 | A path the walk can reach names a directory of the tree, and its last component is `node_modules` |
| Discovery.FoundInSound | mac_cleaner_2.py:162-171 | Soundness: every path reported from a readable directory extends it, and the walk reaches it: through listable directories that are not links and not `node_modules`, within `max_depth`, ending in a `node_modules` directory |
| Discovery.FoundInComplete | mac_cleaner_2.py:162-171 | Completeness: every `node_modules` directory reached that way is reported |
| Discovery.FoundAtRootExactly | mac_cleaner_2.py:158-171 | For one root, a path is reported if and only if the root is an existing directory and the walk reaches the path from it |
| Discovery.FoundAllExactly | mac_cleaner_2.py:152-172 | A path is in the result if and only if the walk reaches it from one of the roots |
| Discovery.ReportedIsNodeModulesDir | mac_cleaner_2.py:162-169 | A path reached from a root is a directory on disk named `node_modules` |
| Discovery.FoundAllOnDisk | mac_cleaner_2.py:152-172 | Every result looks up to a directory of the tree named `node_modules` |
| Docker.ParseDockerSize | mac_cleaner_2.py:49-62 | Text that does not match `([\d\.]+)([kMGT]?B)` gives 0; wherever `parse_docker_size` returns a value, this is that value up to float rounding (exact fractions here, see "## Left out") |
| Docker.MatchSize | mac_cleaner_2.py:50 | A match is a non-empty run of digits and dots followed by B, kB, MB, GB or TB, and it is a prefix of the text |
| Docker.MatchMantissa | mac_cleaner_2.py:50 | A digit-and-dot run followed by a unit matches with that run as the number, whatever follows the unit |
| Docker.ParseWholeUnits | mac_cleaner_2.py:49-62 | Round trip: a whole number of a decimal unit, followed by anything, parses back to that number times 1, 1000, 1000², 1000³ or 1000⁴ |
| Docker.ParseDecimalFraction | mac_cleaner_2.py:53-62 | `a.b` followed by a unit is the exact fraction `ab / 10^|b|` times the multiplier, truncated as `int()` does |
| Docker.ParseOneAndAHalfGigabytes | mac_cleaner_2.py:49-62 | "1.5GB" is 1 500 000 000 bytes |
| Docker.LineBytes | mac_cleaner_2.py:193-204 | A blank line, a line that is not JSON, and a missing, empty or `0B…` `Reclaimable` add nothing; otherwise the line adds what the source adds whenever it does not raise |
| Docker.ReclaimableTotalAppend | mac_cleaner_2.py:191-205 | The total is a sum over lines and splits at any point |
| Docker.CorrectionAgrees | mac_cleaner_2.py:191-205 | Whenever the loop as written returns a total, the corrected total equals it |
| Docker.Reclaimable | mac_cleaner_2.py:178-205 | 0 when `docker` is not on the search path or `docker system df` fails; otherwise the sum over its lines |
| Docker.GetDockerReclaimableBytes | mac_cleaner_2.py:178-205 | The accumulating line loop returns `Reclaimable` |
| Scan.Category.TotalSize | mac_cleaner_2.py:92-94 | `total_size` is at least the size of every item |
| Scan.Category.TotalFiles | mac_cleaner_2.py:96-98 | `total_files` is at least the file count of every item |
| Scan.SumSizesAppend | mac_cleaner_2.py:94 | Item sizes add up across a concatenation of item lists |
| Scan.SumFilesAppend | mac_cleaner_2.py:98 | File counts add up across a concatenation of item lists |
| Scan.AddIfExists | mac_cleaner_2.py:145-150 | `add_if_exists` appends exactly `AddedItems` to the category's items, in path order |
| Scan.AddedItemsMembers | mac_cleaner_2.py:146-150 | An item is added if and only if its path exists (its `stat` succeeds) and either holds a counted file or is a file, and it carries what the walk measured |
| Scan.UnstatableNotAdded | mac_cleaner_2.py:147-150 | A file whose `stat` fails is never added, not even as a (0, 0) item |
| Scan.AddedItemsAppend | mac_cleaner_2.py:146-150 | Adding from two path lists in turn is adding from their concatenation |
| Scan.UserCacheScan | mac_cleaner_2.py:278-285 | The user cache loop appends exactly `UserCacheItems` to the category |
| Scan.CacheChildrenMembers | mac_cleaner_2.py:280-285 | A user cache item is a child without the `com.apple.` prefix whose walk found bytes, and every such child is an item; each item has bytes and at least one file |
| Scan.UserCacheItems | mac_cleaner_2.py:278-285 | Wherever the loop as written finishes, the corrected items are its items |
| Scan.Planned | mac_cleaner_2.py:214-319 | Eight categories are planned, one per step |
| Scan.DiscoverCategories | mac_cleaner_2.py:211-321 | The result is `Discovered`, the eight categories in catalogue order with the empty ones dropped. Progress is reported as (1, 8) … (8, 8) |
| Scan.FixedCategories | mac_cleaner_2.py:217-263 | Steps 1 to 4 fill the temporary-file, log, Homebrew and browser categories from their fixed paths and report progress 1..4 of 8 |
| Scan.FoundCategories | mac_cleaner_2.py:265-319 | Steps 5 to 8 fill the `node_modules`, user cache, development cache and Docker categories and report progress 5..8 of 8 |
| Scan.KeepNonEmpty | mac_cleaner_2.py:321 | The final filter keeps, in order, exactly the categories with items |
| Scan.NonEmptyMembers | mac_cleaner_2.py:321 | A category is kept if and only if it has at least one item |
| Scan.NonEmptyAppend | mac_cleaner_2.py:321 | The filter preserves order: filtering a concatenation filters each part |
| Scan.DiscoveredNonEmpty | mac_cleaner_2.py:321 | The categories returned are exactly the planned categories that have items |
| Scan.DockerAlwaysLast | mac_cleaner_2.py:304-321 | The Docker category is always returned, last, with the single `[Docker]` item. The item has no files and holds the reclaimable bytes, or 0 when the engine is not running |
| Scan.DockerCategory | mac_cleaner_2.py:307-318 | The Docker category holds exactly the sentinel item |
| Selection.SelectIndices | mac_cleaner_2.py:329-348 | One pass of the prompt returns `Selected`: a blank line gives [], an "all" word gives every index, a valid list gives its sorted distinct indices, otherwise a re-prompt (None) |
| Selection.RejectedIffBadToken | mac_cleaner_2.py:334-349 | A tokenised line is rejected if and only if some token, stripped, is not a digit string or is not between 1 and `max_index` |
| Selection.AcceptedIsSortedTokens | mac_cleaner_2.py:342-348 | An accepted line gives the increasing, duplicate-free list of the tokens' values minus one, each below `max_index` |
| Selection.SelectionInRange | mac_cleaner_2.py:327-348 | Every accepted selection is increasing and within `[0, max_index)` |
| Selection.BlankSelectsNothing | mac_cleaner_2.py:329-331 | An empty or blank line selects nothing |
| Selection.AllWordSelectsEverything | mac_cleaner_2.py:329-333 | "all", "todo" or "todos", in any letter case and with surrounding blanks, selects `0..max_index-1` |
| Selection.IndicesMeaning | mac_cleaner_2.py:337-346 | All or nothing: the tokens are accepted exactly when each one is, and then the k-th index is the k-th token's |
| Selection.RejectedPrefix | mac_cleaner_2.py:339-345 | Once a token is rejected, so is the whole line, whatever follows |
| Selection.SortedSet | mac_cleaner_2.py:348 | `sorted(set(result))` is increasing and holds exactly the values of `result` |
| Selection.SortedSetIsTheSortedSet | mac_cleaner_2.py:348 | It is the only increasing sequence holding exactly those values |
| Selection.IncreasingUnique | mac_cleaner_2.py:348 | Two increasing sequences with the same elements are equal |
| Selection.DuplicateTokensCollapse | mac_cleaner_2.py:334-348 | "2,4,2" among five categories selects [1, 3] |
| Selection.OutOfRangeRejectsAll | mac_cleaner_2.py:337-349 | "1,0" is rejected as a whole, although "1" is valid |
| Selection.DigitToken | mac_cleaner_2.py:338-346 | A one-digit token d names index d-1 when that is below `max_index`, and is rejected otherwise |
| Selection.Confirm | mac_cleaner_2.py:351-353 | A yes is, after stripping, a word of one to three characters starting with `y` or `s` |
| Selection.DefaultIsNo | mac_cleaner_2.py:351-353 | An empty or blank answer is a no |
| Selection.ConfirmIgnoresPaddingAndCase | mac_cleaner_2.py:351-353 | Blanks and letter case do not change an answer: it is a yes exactly when its lower-case form is y, yes, s, si or sí |
| Selection.ConfirmExamples | mac_cleaner_2.py:351-353 | "  SÍ " is a yes; "n" and "no" are not |
| Cleanup.DeleteItems | mac_cleaner_2.py:402-441 | The deletion loop makes exactly the calls `Actions` and reports `Outcomes` for the items in order |
| Cleanup.EveryItemReported | mac_cleaner_2.py:402-441 | No failure stops the batch: every item gets one report, which depends only on that item and its own world |
| Cleanup.ActionsOfItems | mac_cleaner_2.py:402-431 | A call is made if and only if some item's handling asks for it |
| Cleanup.NothingUnselectedOrProtectedTouched | mac_cleaner_2.py:406-431 | No removal touches a `com.apple.` name, the sentinel or an unselected path. A prune happens only for a `[Docker]` item while the engine runs |
| Cleanup.Classify | mac_cleaner_2.py:429-441 | Deleted if and only if nothing was raised; skipped for permissions if and only if a `PermissionError` (errno `EPERM` or `EACCES`) was raised; protected by macOS if and only if another `OSError` says "Operation not permitted"; any other `OSError` as an error carrying its text |
| Cleanup.Handle | mac_cleaner_2.py:403-441 | A removal targets only the item's own path, never the sentinel or a `com.apple.` name; a prune happens exactly for the `[Docker]` item while the engine runs; the item is reported deleted exactly when a removal was called and raised nothing |
| Cleanup.FailureClassified | mac_cleaner_2.py:435-441 | An error whose text contains "Operation not permitted" is reported as protected by macOS only when it is not a `PermissionError`; with errno `EPERM` or `EACCES` the first handler reports it as a permission skip |
| Cleanup.SelectItems | mac_cleaner_2.py:379-381 | The selected items are the chosen categories' items, category by category in selection order |
| Cleanup.SummaryTotal | mac_cleaner_2.py:384 | The summary total is the sum of the chosen categories' `total_size` |
| Cleanup.InteractiveCleanup | mac_cleaner_2.py:361-441 | The session is `CleanupSession`. It ends with no categories, with nothing selected, as a dry run before any confirmation, as cancelled without a yes, or with the deletion loop's calls and reports |
| Cleanup.CleanedSession | mac_cleaner_2.py:375-441 | A session that deletes was not a dry run and got a yes. It handles exactly the chosen categories' items, shows their total size and reports once per item |
| Display.HumanUnit | mac_cleaner_2.py:40-47 | `human_size` prints in the unit `UnitIndex` picks, scaled by that power of 1024 |
| Display.UnitBounds | mac_cleaner_2.py:43-47 | The chosen unit's range holds the size: below 1024 of it, and at least one of it past bytes; PB takes everything from 1024 TB on |
| Display.UnitCharacterised | mac_cleaner_2.py:43-47 | Those bounds determine the unit uniquely |
| Display.UnitExamples | mac_cleaner_2.py:40-47 | 1536 bytes are shown in KB (scale 1024), 1023 bytes in B |
| Text.StripPadding | mac_cleaner_2.py:329 | `strip()` removes exactly the blanks around a word |
| Text.DecimalRoundTrip | mac_cleaner_2.py:342 | `int(str(n)) == n` |
| Text.SplitJoin | mac_cleaner_2.py:334 | `",".join(s.split(","))` is `s` |
| Text.FirstWord | mac_cleaner_2.py:203 | `rec.split()[0]` is a non-empty word with no blank, and it exists if and only if `rec` is not all blank |

## Left out

- Input and output are not modelled: `input`, `print`, the colours and `print_progress_bar`, `argparse` and `main`. The progress callback is modelled only as the list of `(step, 8)` pairs it receives.
- The re-prompt loop of `prompt_select_indices` is left out. `Cleanup.InteractiveCleanup` takes the first line the prompt accepts.
- `subprocess`, `shutil.which` and `json.loads` are not modelled. Their outcomes are parameters: `Docker.DockerEnv`, and `ItemWorld` in the deletion loop.
- Some JSON lines are not modelled: a line that decodes to something other than an object makes `.get` raise, and a truthy `Reclaimable` that is not a string (`5`, `["x"]`) makes `.startswith` raise `AttributeError`. A falsy one (`null`, `0`, `false`, `[]`, `{}`) is skipped by the `not rec` test like a missing one, which is what `Record(None)` models. Only objects with an optional string field are modelled.
- The filesystem does not change while the cleanup runs. What each removal and prune did is a parameter, so the model states which calls are made and how each result is reported, not the resulting tree.
- `Path.is_dir()` raising on a permission error is not modelled. `ItemWorld.isRealDir` stands for `p.is_dir() and not p.is_symlink()`.
- Display.HumanUnit: floating point is not modelled. Only the unit and the power of 1024 are stated, not the rounded number printed with `.1f`.
- Docker.ParseDockerSize: the value is computed as an exact fraction and truncated, whereas Python multiplies a binary float before `int()`. "1.001kB" is 1001 here and 1000 in Python (1.001 × 1000 is 1000.9999…). Mantissas above 2^53 lose precision in a float, so "9007199254740993TB" is off by 10^12 bytes.
- Docker.ParseDockerSize: the model's mantissa is ASCII digits and dots. The source's `\d` matches every Unicode decimal digit and `float()` reads them, so "٣GB" is 3 GB to the source and 0 here.
- Docker.ParseDockerSize: `OverflowError` is not modelled. A mantissa of 309 or more digits, or a product `value * multiplier` above the largest float (about 1.8 × 10^308), is `inf` in Python, and `int(inf)` raises `OverflowError` out of the scan. For example, "1" followed by 309 zeros and "B" raises in the source. The model returns the exact value, so `Docker.ParseDockerSizeAsWritten` and `Docker.CorrectionAgrees` do not cover that case.
- Text.Lower covers ASCII and Latin-1 letters only. Text.IsDigits accepts ASCII digits only, whereas `str.isdigit` also accepts other Unicode digits and superscripts. A selection token such as "²" passes `isdigit()`, and `int("²")` then raises `ValueError` outside any handler, which ends the program; the model treats the token as invalid and asks again.
- SizeWalk.SafeWalk: the `except OSError: pass` around the walk is not modelled. Before Python 3.13, `is_symlink()` raises `PermissionError` for an entry of a directory that can be listed but not searched; the source then returns the totals counted so far. The model has no directory that can be listed but not searched, so it always returns the full totals.
- FsTree.Exists: before Python 3.13, `Path.exists()` raises on `EACCES` instead of returning false. The model answers false, as Python 3.13 does.
- Cleanup.Classify: only errno decides `PermissionError`. CPython raises every `EPERM` as a `PermissionError`, so the "Protegido por macOS" report is reached only by another `OSError` whose text contains the phrase, which is rare in practice.
- Home-relative paths (`expand("~/…")`) are the home directory's parts followed by the rest of the path.
- Special files (sockets, devices) are not modelled. Hard links are counted once per link, by the source and by the model.
- Scan.DiscoverCategories does not promise the categories are new objects. The model states their contents, not their identity.
- compile_translations.py is not part of this model: it only runs `msgfmt` over translation files.

## Findings

| source | as written | input that shows it | evidently intended | confidence | as-written member | corrected member |
|---|---|---|---|---|---|---|
| mac_cleaner_2.py:201-203 | A `Reclaimable` value made only of whitespace passes the `not rec` test. `rec.split()[0]` then raises `IndexError`, which escapes the loop and ends the whole scan | a `docker system df` line `{"Reclaimable": " "}` | the line adds nothing, like an empty value | not executed | Docker.WhitespaceReclaimableRaises | Docker.LineBytes |
| mac_cleaner_2.py:50-53 | The pattern `[\d\.]+` admits a number with two dots. `float()` then raises `ValueError`, which escapes the loop and ends the scan | a `Reclaimable` of "1.2.3GB" | text that cannot be read counts as 0, like text that does not match | not executed | Docker.TwoDotMantissaRaises | Docker.ParseDockerSize |
| mac_cleaner_2.py:279-280 | `root.exists()` is true for a caches directory that cannot be listed. `root.iterdir()` then raises `PermissionError` out of the whole scan | `~/Library/Caches` present but unreadable | the category is just left empty | not executed | Scan.UnreadableCachesAborts | Scan.UserCacheItems |
