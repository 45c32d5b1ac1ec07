# org_analysis statistics pipeline in Dafny

This project models the statistics pipeline of `org_analysis`. The pipeline runs the
`hercules` analysis tool on many cloned repositories and merges the per-repository
statistics files into one aggregate with `hercules combine`.

It covers:

- `dir_size`: the size of a repository, adding up the files that can be stat'ed.
- `repository_statistics`: checks the paths and derives the output location from the URL. It
  reuses an existing result unless `force` is set and skips oversized repositories. It then
  runs hercules and, if that fails, retries once with `--first-parent`.
- `slice_max_n`: the batching index generator.
- `starts_with_zero_timestamp`: the 1970-01-01 filter.
- `merge_statistics_`: one `hercules combine` run.
- `merge_statistics`: the hierarchical merge loop over numbered temporary files.
- From `utils.py`: `filter_kwargs`, and the exists/force decision of `clone_repo` around
  `git clone --bare`.

The environment is a value, `Host.World`. It holds:

- the set of existing directories;
- a map from path to `Artifact`, giving the size the file reports (`None` when `getsize`
  raises) and the start time in its statistics header (`None` when the header cannot be
  read);
- the log of every external command run, with the file its standard output went to.

`Host.WellFormed` states what a real file system guarantees of such a value: no path is both
a directory and a file, and the empty path is neither. The file system operations keep it.

External programs are an oracle `run: seq<string> -> Run`, giving the exit status, the
output size and the header start time of what the program writes.

`Host.Machine` is the live environment. It is a class whose methods (`Exec`, `ExecQuiet`,
`MakeDirs`, `MakeTempDir`, `RemoveTree`) change its fields in place. Each imperative operation
of the source is a module-level method that takes a `Machine` and acts on it through those
methods. Each is proved to leave the machine in the state a value-level function computes, and
to return what that function returns:

| method | function |
|---|---|
| `DirSize` | `SumSizes` |
| `RepositoryStatistics` | `RepoStatsResult` |
| `Combine` | `CombineResult` |
| `CombineLevel` | `LevelResult` |
| `MergeStatistics` | `MergeResult` |
| `CloneRepo` | `CloneResult` |

The properties are lemmas about those functions.

A function that models a source function returns the source's return value first and the
environment second. The host primitives (`Execute`, `ExecuteQuiet`) and the loop steps of the
merge (`LevelResult`, `LevelStep`, `ReduceResult`) return the environment first: it is the
state the next step goes on from.

Modules, one concern each:

- `Wrappers`: `Option`, and `Outcome`, which is a return value or a raised exception.
- `Text`: `str.split()`, `str.split(sep)` and `str(int)`.
- `Paths`: `os.path.join`, `normpath`, `abspath`.
- `Arith`: division facts for the batching.
- `Host`: the environment.
- `HerculesStatistics`: per-repository processing.
- `HerculesMerge`: batching, filtering and merging.
- `Utils`: `filter_kwargs` and `clone_repo`.

Behaviours of the code worth noting (the model follows the code):

- A statistics file whose header cannot be read makes `starts_with_zero_timestamp` raise. The
  filter does not catch this, so the whole merge raises before any combine runs
  (`MergeRaisesOnUnreadableHeader`). The file is not treated as invalid and skipped.
- An empty list of usable statistics still reaches the final `hercules combine`, with no
  inputs (`EmptyInputStillCombines`). There is no early "nothing to merge" failure.
- When every batch of a level fails, the loop does not fail the reduction. The level leaves
  an empty stack, and the final combine runs on it.
- A failed hercules run leaves its truncated output file behind, because the file is opened
  before the program runs. A later call without `force` then reports that file as an earlier
  result (`RerunAfterFailureReusesLeftover`).
- Standard error is not captured or truncated, and a fallback success is not distinguished
  from a primary success.
- Every intermediate file of a merge is written to `os.path.join(tmp_dir, join(tmp_dir,
  "<k>.pb"))`. The second join is harmless because `tempfile` makes `tmp_dir` absolute
  (`TempPathInside`).

## Model

| member | source | states |
|---|---|---|
| HerculesStatistics.SumSizes | org_analysis/hercules_statistics.py:38-46 | the total `dir_size` returns for a walk: the sizes of the visited files added in walk order, a file whose `getsize` raises counting 0; `SumSizesAppend` and `SumSizesReadable` state how it adds up and which files contribute |
| HerculesStatistics.DirSize | org_analysis/hercules_statistics.py:31-46 | the nested walk loop returns the sum of `getsize` over the visited files, in walk order, where a file whose size cannot be read counts 0 |
| HerculesStatistics.Readable | org_analysis/hercules_statistics.py:42-45 | the files whose size can be read are existing files among the visited paths |
| HerculesStatistics.SumSizesReadable | org_analysis/hercules_statistics.py:42-45 | swallowing the lookup exception is the same as summing over the readable files only |
| HerculesStatistics.SumSizesAppend | org_analysis/hercules_statistics.py:39-43 | the total over a walk is the sum of the totals of its parts |
| HerculesStatistics.Admitted | org_analysis/hercules_statistics.py:85 | a repository goes on to hercules unless `repo_size > size_limit > 0`; `AdmittedMonotone` states what that admits |
| HerculesStatistics.AdmittedMonotone | org_analysis/hercules_statistics.py:85 | a limit of 0 or below admits everything; a positive limit admits exactly the sizes up to it; admission is monotone in the size |
| HerculesStatistics.ResultDir | org_analysis/hercules_statistics.py:75 | the result directory `os.path.join(output_dir, *repo_url.split("/")[-2:])`; `LastTwoOfUrl` and `StatLocLayout` state that it is `<output_dir>/<owner>/<name>` |
| HerculesStatistics.StatLoc | org_analysis/hercules_statistics.py:76 | the statistics file `statistics.pb` inside the result directory; `StatLocLayout` states its full shape |
| HerculesStatistics.SplitUrl | org_analysis/hercules_statistics.py:75 | splitting a URL ending in `<owner>/<name>` on `/` ends with those two pieces |
| HerculesStatistics.LastTwoOfUrl | org_analysis/hercules_statistics.py:75 | `repo_url.split("/")[-2:]` is `[owner, name]` for such a URL |
| HerculesStatistics.StatLocLayout | org_analysis/hercules_statistics.py:75-76 | the statistics file is `<output_dir>/<owner>/<name>/statistics.pb` |
| HerculesStatistics.AnalysisCommand | org_analysis/hercules_statistics.py:95-109 | the primary hercules command list; `BuildCommand` proves the source's `append`/`extend` steps build exactly this list |
| HerculesStatistics.FallbackCommand | org_analysis/hercules_statistics.py:119 | the primary command with `--first-parent` appended; `AnalysisRuns` states it runs only after the primary failed |
| HerculesStatistics.BuildCommand | org_analysis/hercules_statistics.py:95-109 | the step-by-step `append`/`extend` builds exactly the primary command list |
| HerculesStatistics.RepoStatsResult | org_analysis/hercules_statistics.py:49-133 | `repository_statistics` as a value: the returned report or the raised error, and the environment afterwards; `BadPathsRaise`, `BlockedResultDirRaises`, `ExistingIsReused`, `OversizeIsRejected`, `AdmittedRunsAtMostTwice`, `ErrorIffNoPath`, `RerunReuses` and `RerunAfterFailureReusesLeftover` state its behaviour |
| HerculesStatistics.AnalysisResult | org_analysis/hercules_statistics.py:110-133 | the two `try` blocks as a value: the primary run, then the fallback on failure, and the report; `AnalysisRuns` states which runs happen and when a path comes back |
| HerculesStatistics.RepositoryStatistics | org_analysis/hercules_statistics.py:49-133 | the method returns and leaves the environment as `RepoStatsResult` describes: path checks, reuse, size check, makedirs (which raises when a file is in the way), primary run, fallback run |
| HerculesStatistics.BadPathsRaise | org_analysis/hercules_statistics.py:70-92 | the call raises iff the repository directory is missing or not absolute, or the output directory is not absolute (`ValueError`), or hercules is due and `makedirs` of the result directory raises; whatever raises changes nothing |
| HerculesStatistics.BlockedResultDirRaises | org_analysis/hercules_statistics.py:92 | when hercules is due and a file sits at the result directory or on the way to it, `makedirs` raises out of the call, hercules never runs and nothing changes |
| HerculesStatistics.ExistingIsReused | org_analysis/hercules_statistics.py:78-83 | an existing statistics file without `force` is returned with an empty error and nothing run, before the size check |
| HerculesStatistics.OversizeIsRejected | org_analysis/hercules_statistics.py:85-90 | otherwise a repository beyond a positive limit yields a non-empty error, no path, and an unchanged environment |
| HerculesStatistics.AdmittedRunsAtMostTwice | org_analysis/hercules_statistics.py:92-133 | an admitted repository whose result directory can be created gets that directory and one or two runs: the fallback (primary plus `--first-parent`) only after the primary failed; a path comes back iff one run succeeded |
| HerculesStatistics.AnalysisRuns | org_analysis/hercules_statistics.py:110-133 | the primary run, then the fallback only on failure, each writing the statistics file; success iff one of them exits 0 |
| HerculesStatistics.ErrorIffNoPath | org_analysis/hercules_statistics.py:78-133 | in every returned report the error is empty iff a path is returned, that path is the statistics file, and the size is the measured one |
| HerculesStatistics.RerunReuses | org_analysis/hercules_statistics.py:78-83 | running again without `force` after a call that returned a path returns the same path with no error and changes nothing |
| HerculesStatistics.RerunAfterFailureReusesLeftover | org_analysis/hercules_statistics.py:110-130 | after both runs failed, the output file is left behind and a rerun without `force` reports it as a success |
| HerculesMerge.Range | org_analysis/hercules_statistics.py:144 | `range(start, stop, step)` for a positive step; `RangeShape` states its length and elements |
| HerculesMerge.Zip | org_analysis/hercules_statistics.py:144 | `zip` pairs elements index by index up to the shorter length |
| HerculesMerge.RangeShape | org_analysis/hercules_statistics.py:144 | `range(start, stop, step)` has ceil((stop-start)/step) elements, the `k`-th being `start + step*k` |
| HerculesMerge.SliceMaxN | org_analysis/hercules_statistics.py:136-145 | the pairs `slice_max_n(size, n)` yields, as the `zip` of its two ranges; `SliceMaxNShape`, `SliceMaxNAbut`, `SliceMaxNBounds` and `SliceMaxNCover` state their number, positions and coverage |
| HerculesMerge.SliceMaxNShape | org_analysis/hercules_statistics.py:136-145 | `slice_max_n(size, n)` yields exactly ceil(size/n) pairs, the `k`-th being `(k*n, (k+1)*n)` |
| HerculesMerge.SliceMaxNAbut | org_analysis/hercules_statistics.py:144-145 | each pair ends where the next one starts |
| HerculesMerge.SliceMaxNBounds | org_analysis/hercules_statistics.py:144-145 | every pair starts below `size` and the last one reaches `size` |
| HerculesMerge.SliceMaxNCover | org_analysis/hercules_statistics.py:144-145 | every index below `size` lies in exactly one pair, the one numbered `i / n` |
| HerculesMerge.PySlice | org_analysis/hercules_statistics.py:186 | Python's `s[a:b]` for non-negative bounds: both ends clamped to the length, empty when `a >= b`; `BatchAt` states what it gives for each pair |
| HerculesMerge.Batches | org_analysis/hercules_statistics.py:184-186 | the slices `file_stack[start:end]` one level combines, one per pair of `slice_max_n`; `BatchAt` and `BatchesPartition` state their sizes and that they partition the stack in order |
| HerculesMerge.BatchAt | org_analysis/hercules_statistics.py:184-186 | the `k`-th batch is the slice from `k*n` to `(k+1)*n` clamped to the stack, holding 1 to `n` files |
| HerculesMerge.BatchesPartition | org_analysis/hercules_statistics.py:184-186 | the batches of a level concatenate back to the stack, in order, and there are ceil(L/n) of them, each of 1 to `n` files |
| HerculesMerge.FlattenPrefix | org_analysis/hercules_statistics.py:184-186 | consecutive runs of `n` files cut from the stack concatenate back to its prefix: the first `j` runs give the first `min(j*n, L)` files |
| HerculesMerge.LevelShrinks | org_analysis/hercules_statistics.py:183-186 | with `n >= 2` and more than `n` files, a level makes fewer batches than there are files |
| HerculesMerge.EpochDay | org_analysis/hercules_statistics.py:153 | a timestamp formats as 1970-01-01 UTC iff `0 <= start < 86400` |
| HerculesMerge.StartsWithZeroTimestamp | org_analysis/hercules_statistics.py:148-153 | it raises iff the header cannot be read or its start is outside what `datetime` represents; otherwise it is true iff `0 <= start < 86400` |
| HerculesMerge.Locations | org_analysis/hercules_statistics.py:168 | the locations are exactly the non-empty paths of the outcomes, at most one per outcome |
| HerculesMerge.LocationsAppend | org_analysis/hercules_statistics.py:168 | the locations keep the order of the outcomes |
| HerculesMerge.LocationsOfNone | org_analysis/hercules_statistics.py:168 | outcomes without a path give no locations |
| HerculesMerge.FilterDated | org_analysis/hercules_statistics.py:170-175 | the filter raises iff some header cannot be read; otherwise it keeps exactly the locations whose start is not on 1970-01-01 |
| HerculesMerge.FilterDatedAppend | org_analysis/hercules_statistics.py:170-175 | filtering keeps the input order |
| HerculesMerge.FilterRaisesFirst | org_analysis/hercules_statistics.py:171-172 | the first header that cannot be read decides the exception, whatever follows it |
| HerculesMerge.FilterLocations | org_analysis/hercules_statistics.py:170-175 | the filtering loop returns what `FilterDated` describes and changes nothing |
| HerculesMerge.CombineResult | org_analysis/hercules_statistics.py:203-230 | one `[exec, "combine"] + files` run writes the target, `output_dir/output_filename` for a non-empty directory; the target comes back iff the run exits 0, `None` otherwise; existing files stay files |
| HerculesMerge.Combine | org_analysis/hercules_statistics.py:203-230 | the method returns and leaves the environment as `CombineResult` describes |
| HerculesMerge.CombineKeepsNonEmpty | org_analysis/hercules_statistics.py:224-225 | a combine that writes something leaves a non-empty target and keeps other non-empty files non-empty |
| HerculesMerge.TempPathsDistinct | org_analysis/hercules_statistics.py:185 | different counter values give different intermediate names and paths |
| HerculesMerge.TempPathInside | org_analysis/hercules_statistics.py:182-189 | for an absolute temporary directory, the `k`-th intermediate file is `tmp_dir/k.pb`, inside the directory |
| HerculesMerge.TempPathNotEmpty | org_analysis/hercules_statistics.py:185 | an intermediate path is never empty text |
| HerculesMerge.LevelResult | org_analysis/hercules_statistics.py:184-191 | one pass of the `for` loop as a value: one output per batch and the environment after the combines; `LevelCalls`, `LevelWritesCounted`, `LevelOutputs`, `LevelAllSucceed` and `LevelAllNonEmpty` state what it runs and writes |
| HerculesMerge.LevelOutputs | org_analysis/hercules_statistics.py:184-189 | each result of a level is its own intermediate file, every intermediate file of the level exists afterwards, and existing files remain |
| HerculesMerge.LevelProducesFiles | org_analysis/hercules_statistics.py:184-192 | every path a level returns can be measured by `getsize` |
| HerculesMerge.LevelCalls | org_analysis/hercules_statistics.py:184-190 | a level runs one combine per batch, in order, the `k`-th writing intermediate file `cnt + k`, and nothing else |
| HerculesMerge.CombineLevel | org_analysis/hercules_statistics.py:184-191 | the `for` loop over `slice_max_n` leaves the environment and `new_stack` as `LevelResult` describes and advances the counter by the number of batches |
| HerculesMerge.Survivors | org_analysis/hercules_statistics.py:192 | the comprehension `[loc for loc in new_stack if loc and os.path.getsize(loc) > 0]`, never longer than the outputs; `SurvivorsMembers`, `SurvivorsAppend` and `SurvivorsKeepAll` state which paths survive, in which order |
| HerculesMerge.SurvivorsMembers | org_analysis/hercules_statistics.py:192 | a path survives a level iff it was produced, is not empty text, and names a non-empty file |
| HerculesMerge.SurvivorsAppend | org_analysis/hercules_statistics.py:192 | the survivors of a level keep batch order: those of two runs of outputs are the survivors of the first followed by those of the second |
| HerculesMerge.SurvivorsKeepAll | org_analysis/hercules_statistics.py:192 | when every output exists and is non-empty, all of them survive |
| HerculesMerge.LevelAllSucceed | org_analysis/hercules_statistics.py:186-189 | when every combine of a level succeeds, each result is its intermediate file |
| HerculesMerge.LevelAllNonEmpty | org_analysis/hercules_statistics.py:186-192 | when every combine of a level writes something, every intermediate file of the level is non-empty |
| HerculesMerge.LevelKeepsAll | org_analysis/hercules_statistics.py:184-192 | a level whose combines all succeed with output keeps one file per batch |
| HerculesMerge.LevelStep | org_analysis/hercules_statistics.py:183-193 | with `n >= 2`, one turn of the `while` loop leaves at most ceil(L/n) < L files, advances the counter by the number of batches and only appends to the call log |
| HerculesMerge.ReduceResult | org_analysis/hercules_statistics.py:183-193 | the loop ends with at most `n_samples` files and the earlier calls untouched; over all its levels the `i`-th combine writes intermediate file `cnt + i`, since the counter is never reset |
| HerculesMerge.LevelWritesCounted | org_analysis/hercules_statistics.py:184-190 | the combines of one level write intermediate files `cnt`, `cnt + 1`, ... in order |
| HerculesMerge.NamesDistinct | org_analysis/hercules_statistics.py:185 | the naming `os.path.join(tmp_dir, f"{k}.pb")` gives different counters different targets |
| HerculesMerge.ReduceTargetsDistinct | org_analysis/hercules_statistics.py:183-193 | with such a naming, no two combines of a reduction, in the same level or in different ones, write the same file |
| HerculesMerge.MergeTargetsDistinct | org_analysis/hercules_statistics.py:182-192 | in a sampled merge no two combines of the levels write the same intermediate file |
| HerculesMerge.ReduceKeepsLevel | org_analysis/hercules_statistics.py:183-193 | the calls of a reduction begin with those of its first level |
| HerculesMerge.ReduceFirstLevel | org_analysis/hercules_statistics.py:184-190 | the `k`-th call of a reduction over more than `n` files combines the `k`-th batch into the `k`-th intermediate file |
| HerculesMerge.MergeResult | org_analysis/hercules_statistics.py:156-200 | `merge_statistics` as a value: the filter, then either one combine of the filtered files or the levels, the final combine and the removal of the temporary directory; `MergeRaisesOnUnreadableHeader`, `MergeFlat`, `EmptyInputStillCombines`, `MergeSmallInput`, `MergeSampledCalls`, `MergeSampled`, `MergeFirstLevel`, `MergeTargetsDistinct` and `MergeLeavesOutput` state its behaviour |
| HerculesMerge.MergeStatistics | org_analysis/hercules_statistics.py:156-200 | the method returns and leaves the environment as `MergeResult` describes |
| HerculesMerge.MergeRaisesOnUnreadableHeader | org_analysis/hercules_statistics.py:171-172 | an unreadable header among the locations makes the merge raise before anything runs or changes |
| HerculesMerge.MergeFlat | org_analysis/hercules_statistics.py:198-200 | without sampling, exactly one combine of the filtered files into `output_filepath` runs; the result is the path iff it exits 0 |
| HerculesMerge.EmptyInputStillCombines | org_analysis/hercules_statistics.py:195-200 | with no usable outcome, the merge still runs one `[exec, "combine"]` with no inputs |
| HerculesMerge.MergeSmallInput | org_analysis/hercules_statistics.py:183-197 | with sampling and at most `n_samples` files, no intermediate file is made: one combine writes the target |
| HerculesMerge.MergeLeavesOutput | org_analysis/hercules_statistics.py:195-200 | a merge that gets past the filter leaves a file at `output_filepath`, on success and on failure, when that path is outside the temporary directory |
| HerculesMerge.MergeSampledCalls | org_analysis/hercules_statistics.py:183-197 | with sampling, the calls are the level combines followed by exactly one final combine of the remaining files into `output_filepath` |
| HerculesMerge.MergeSampled | org_analysis/hercules_statistics.py:182-197 | with sampling, at most `n_samples` files reach the final combine, the merge succeeds iff it does, and nothing under the temporary directory remains |
| HerculesMerge.MergeFirstLevel | org_analysis/hercules_statistics.py:177-190 | the first combines of a sampled merge over more than `n_samples` files are the batches of the filtered files, the `k`-th into `tmp_dir/k.pb` |
| HerculesMerge.NoProgressWithOne | org_analysis/hercules_statistics.py:183-193 | with `n_samples == 1` and combines that all succeed with output, a level leaves as many files as it started with, so the loop never ends |
| Utils.FilterKwargs | org_analysis/utils.py:72-81 | the result holds exactly the entries whose key is a parameter, values unchanged, never more entries than the input |
| Utils.FilterKwargsConcat | org_analysis/utils.py:81 | filtering works entry by entry, keeping the iteration order |
| Utils.FilterKwargsIdempotent | org_analysis/utils.py:81 | filtering twice is filtering once |
| Utils.FilterKwargsKeepsAll | org_analysis/utils.py:81 | when every key is a parameter, nothing is dropped |
| Utils.FilterKwargsDistinct | org_analysis/utils.py:81 | the keys of the result stay distinct |
| Utils.CloneCommand | org_analysis/utils.py:55 | `f"git clone --bare {repo_url} {dest}".split()`; `CloneCommandWords` and `CloneCommandPlain` state its words |
| Utils.CloneLineParts | org_analysis/utils.py:55 | the clone command line is `git`, `clone`, `--bare`, the URL and the destination separated by single spaces |
| Utils.CloneCommandWords | org_analysis/utils.py:55 | the clone command is `["git", "clone", "--bare"]` followed by the words of the URL and of the destination |
| Utils.CloneCommandPlain | org_analysis/utils.py:55 | a URL and destination without whitespace give five arguments; the default empty destination gives four |
| Utils.CloneResult | org_analysis/utils.py:46-69 | `clone_repo` as a value: the returned destination or `None`, and the environment afterwards; `CloneKeepsExisting`, `CloneRunsOnce` and `RecloneReuses` state its behaviour |
| Utils.CloneRepo | org_analysis/utils.py:46-69 | the method returns and leaves the environment as `CloneResult` describes |
| Utils.CloneKeepsExisting | org_analysis/utils.py:56-60 | an existing destination without `force` is returned with nothing deleted or run |
| Utils.CloneRunsOnce | org_analysis/utils.py:55-69 | otherwise exactly one git command runs, and `dest` comes back iff it exits 0, `None` otherwise; a successful clone leaves `dest` as a directory; when forced over an existing destination its old contents are removed first, and `dest` is gone after a failed clone; files outside `dest` do not change |
| Utils.RecloneReuses | org_analysis/utils.py:56-62 | once a clone into a non-empty `dest` has succeeded, an unforced clone returns `dest` with nothing deleted or run |
| Text.Words | org_analysis/utils.py:55 | `str.split()` yields non-empty words without whitespace |
| Text.WordsAroundSpace | org_analysis/utils.py:55 | a whitespace character separates the words of its two sides |
| Text.WordsOfWord | org_analysis/utils.py:55 | a non-empty string without whitespace is one word |
| Text.TwoWords | org_analysis/utils.py:55 | two words separated by one space split into those two words |
| Text.SplitOn | org_analysis/hercules_statistics.py:75 | `str.split(sep)` yields at least one piece, none holding the separator |
| Text.JoinSplit | org_analysis/hercules_statistics.py:75 | joining the pieces of a split gives the string back |
| Text.SplitJoin | org_analysis/hercules_statistics.py:75 | splitting a join gives the pieces back when none holds the separator |
| Text.SplitAroundSep | org_analysis/hercules_statistics.py:75 | a separator splits a string into the pieces of its two sides |
| Text.SplitOfPiece | org_analysis/hercules_statistics.py:75 | a string without the separator is one piece |
| Text.NatToString | org_analysis/hercules_statistics.py:185 | `str(k)` is a non-empty string of decimal digits, one digit exactly for `k < 10` |
| Text.NatToStringInjective | org_analysis/hercules_statistics.py:185 | different counters print differently |
| Paths.PathJoin | org_analysis/hercules_statistics.py:75-76 | `os.path.join(a, b)`: a rooted `b` replaces `a`, otherwise `b` is appended with one `/` unless `a` is empty or ends in `/`; `PathJoinInjective` and `PathJoinRooted` state its properties |
| Paths.PathJoinAll | org_analysis/hercules_statistics.py:75 | `os.path.join(a, *parts)`, joining the parts left to right; `StatLocLayout` states the result for two plain parts |
| Paths.PathJoinInjective | org_analysis/hercules_statistics.py:185 | joining onto the same directory loses nothing |
| Paths.PathJoinRooted | org_analysis/hercules_statistics.py:75 | a path joined onto a rooted directory is rooted |
| Paths.NormComps | org_analysis/hercules_statistics.py:70 | `normpath` keeps only real components, and none is `..` under the root |
| Paths.NormPathRooted | org_analysis/hercules_statistics.py:70 | `normpath` of a rooted path is rooted |
| Paths.NormPath | org_analysis/hercules_statistics.py:70-73 | `os.path.normpath` on POSIX paths; `NormComps` and `NormPathRooted` state what it keeps |
| Paths.AbsPath | org_analysis/hercules_statistics.py:70-73 | `os.path.abspath` with the working directory as a parameter; `AbsPathFixpoint` states when it is the identity |
| Paths.IsAbsolute | org_analysis/hercules_statistics.py:70-73 | the test `os.path.abspath(p) == p`; `AbsPathFixpoint` and `AbsoluteHasNoDots` state what it admits |
| Paths.AbsPathFixpoint | org_analysis/hercules_statistics.py:70-73 | `abspath(p) == p` does not depend on the working directory |
| Paths.AbsoluteHasNoDots | org_analysis/hercules_statistics.py:70-73 | a path that passes the absolute-path test has no `.` or `..` component |
| Host.Execute | org_analysis/hercules_statistics.py:110-113 | a run truncates and writes its destination whether or not it succeeds, logs the command, changes no other file, and succeeds iff the exit status is 0 |
| Host.ExecuteQuiet | org_analysis/utils.py:62 | a run with captured output logs the command and writes no file; on success the directory the program creates (the clone destination) exists afterwards with its parents, and on failure no directory changes |
| Host.MakeDirsIn | org_analysis/hercules_statistics.py:182 | creating a directory adds it and its ancestors and changes nothing else |
| Host.MakeDirsRaises | org_analysis/hercules_statistics.py:92 | when `os.makedirs(p, exist_ok=True)` raises: `p` empty, or a file at `p` or on the way to it; `MakeDirsResult` states that it raises exactly then |
| Host.MakeDirsResult | org_analysis/hercules_statistics.py:92 | `makedirs(p, exist_ok=True)` raises, changing nothing, iff `p` is empty or a file sits at `p` or on the way to it; otherwise `p` and its ancestors are directories afterwards, no other directory is added and no file changes |
| Host.ExecuteKeepsWellFormed | org_analysis/hercules_statistics.py:111-113 | writing a file that is not a directory keeps the file system well formed: no path both a file and a directory, and the empty path neither |
| Host.ExecuteQuietKeepsWellFormed | org_analysis/utils.py:62 | a quiet run keeps the file system well formed when the directory it creates could be made |
| Host.MakeDirsKeepsWellFormed | org_analysis/hercules_statistics.py:92 | a `makedirs` that returns keeps the file system well formed |
| Host.RemoveTreeKeepsWellFormed | org_analysis/utils.py:58 | `rmtree` keeps the file system well formed |
| Host.RemoveTreeIn | org_analysis/utils.py:58 | `rmtree` removes the directory and everything below it, and nothing else |
| Host.Machine.Exec | org_analysis/hercules_statistics.py:111-113 | the live run changes the machine as `Execute` describes |
| Host.Machine.ExecQuiet | org_analysis/utils.py:62 | the live quiet run, including the directory it creates on success, changes the machine as `ExecuteQuiet` describes |
| Host.Machine.MakeDirs | org_analysis/hercules_statistics.py:92 | the live `makedirs` returns the error and changes the machine as `MakeDirsResult` describes |
| Host.Machine.MakeTempDir | org_analysis/hercules_statistics.py:182 | creating the temporary directory changes the machine as `MakeDirsIn` describes |
| Host.Machine.RemoveTree | org_analysis/utils.py:58 | the live `rmtree` changes the machine as `RemoveTreeIn` describes |

## Left out

- Running `hercules` and `git` is an oracle from the argument list to an exit status, an
  output size and a header start time. A missing executable (`FileNotFoundError`) is not
  modelled; the source does not catch it either.
- `os.walk` is a parameter of `DirSize` and `RepositoryStatistics`: the listing of directories
  and file names it would produce.
- Reading the protobuf header (`labours.ProtobufReader`) is a field of each file in the
  environment: the start time, or `None` when the header cannot be read. The
  `datetime` formatting is modelled by its range limits and the day arithmetic.
- The directory `tempfile.TemporaryDirectory` picks is the `tmpDir` parameter. Its removal
  is modelled on the path that returns normally; an exception cannot occur inside the `with`
  block in this model, since every combine failure is caught.
- Host.MakeDirsError: the message names the directory asked for. The source's
  `NotADirectoryError` names the first directory on the way that it could not create.
- Host.Machine.MakeTempDir: `tempfile` picks a fresh name under an existing temporary root;
  here the name is the `tmpDir` parameter and its parents are added as for `makedirs`.
- Wall-clock time (`time()`) and the `duration` field of `ReportStat` are not modelled.
- HerculesStatistics.RunError: the error text carries only the exit status of the
  `CalledProcessError`, not its full message with the command line.
- Logging, `multiprocessing.Pool`/`tqdm`, the pandas CSV handling of `hercules_handler`, the
  argument parsing and the `__main__` blocks are not modelled.
- `init_github`, `download_hercules`, `ArgumentDefaultsHelpFormatterNoNone` and
  `download_repos.py` are not part of this model: they are network or library calls.
- `filter_kwargs` takes the parameter names of the function as a set; `inspect.signature`
  is not modelled.
- HerculesMerge.MergeStatistics: requires `n_samples != 1`, so no run with `n_samples == 1`
  is modelled. That includes runs the source finishes: those with at most one usable file,
  and those whose combines fail or write nothing. With one file per batch and combines that
  succeed, the loop never ends (`NoProgressWithOne`), and the model has no non-terminating
  behaviour.
- HerculesMerge.MergeResult: requires `n_samples != 1`, for the same reason.
- Host.Execute: `open(dest, "wb")` is assumed to succeed. When it raises, for example because
  the parent directory of the final output path does not exist, the exception propagates out
  of `repository_statistics` or `merge_statistics`. The model does not raise there.
- Host.ExecuteQuiet: a successful `git clone` creates only the directory `dest` and its
  parents. The files of the bare repository inside it are not modelled. With an empty `dest`,
  git picks a directory name from the URL; that directory is not modelled.
- HerculesMerge.MergeResult: `tmpDir` is any path. `tempfile.TemporaryDirectory` creates a new,
  empty directory; the model does not require that, and its lemmas do not depend on it.
