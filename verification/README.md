# Learning-curve log bookkeeping, modelled in Dafny

This project models the data-preparation core of `spinup_utils/plot.py`, the
script that plots reinforcement-learning learning curves from experiment
log directories. It covers four steps:

- **Log-directory resolution** (`get_all_datasets`). Each command-line
  entry becomes concrete directories. An existing directory written with
  a trailing `/` is taken as is. Any other entry is a prefix, matched
  against the entries of its parent directory. The `select` and `exclude`
  substring rules then filter the list, and the legend length is checked.
- **Run collection** (`get_datasets`). A directory of the `os.walk` is a
  run when it holds `progress.txt` and its `config.json` loads. Runs that
  share an `exp_name` collapse to the last one walked. The survivors are
  sorted by name.
- **Label and unit registry.** The module-level `exp_idx` counter and
  `units` dict give each run a label (`Condition1`), a secondary label
  (`Condition2`) and a per-label unit number. Here they form an explicit
  `Registry` value that is threaded through every call.
- **Frame tagging and smoothing.** The four synthetic columns `Unit`,
  `Condition1`, `Condition2` and `Performance` are appended. The plotted
  column is then smoothed by a normalised convolution.

Modules, in dependency order:

| file | module | what it holds |
|---|---|---|
| wrappers.dfy | `Wrappers` | `Option`, `Result` |
| errors.dfy | `Errors` | the exceptions the modelled code can raise |
| text.dfy | `Text` | Python `in` on strings, `str` ordering, `str(int)`, `rfind` |
| seqs.dfy | `Seqs` | order-preserving filter, counting, dedupe, sorting of strings |
| paths.dfy | `Paths` | POSIX `dirname`, `join`, `split('/')[-1]` |
| resolver.dfy | `Resolver` | prefix resolution, selection rules, legend check |
| collector.dfy | `Collector` | walk results to sorted, de-duplicated runs |
| labels.dfy | `Labels` | `condition1`/`condition2`, the unit registry |
| frames.dfy | `Frames` | a DataFrame as named columns; `Performance` choice and column append |
| smoothing.dfy | `Smoothing` | the moving average over exact reals |
| loader.dfy | `Loader` | `get_datasets` and `get_all_datasets` end to end |

The filesystem is an input, not an effect:

- `Resolver.FileSystem` holds the set of directories (`os.path.isdir`) and
  the listing of every listable directory (`os.listdir`).
- The `os.walk` of each log directory is a list of `Collector.WalkEntry`.
  Each entry records whether `progress.txt` is present and the outcome of
  reading `config.json`.
- `Loader.Progress` maps each run directory whose `progress.txt` parses to
  its frame.

Every exception the modelled code raises is a `Failure` carrying an
`Errors.Error`: a failed `os.listdir`, the legend assertion, an unorderable
sort, a duplicate column, a missing column, or a failed convolution or
assignment.

Behaviour of `spinup_utils/plot.py` that the model keeps exactly:

- Runs sharing an `exp_name` collapse before sorting. Line 140 builds a
  dict keyed by `exp_name`, so a later root overwrites an earlier one.
  Equal names never reach the `sorted` call of line 144, and only the
  last root walked survives (`Collector.Collect`).
- A directory is recorded only when it holds `progress.txt` and its
  `config.json` opens and parses (lines 128-139). When either fails, the
  directory is dropped entirely (`Collector.Discover`). A `config.json`
  that parses but has no `exp_name` key gives the `None` name (lines
  129 and 133-134).
- Sorting the dict items (line 144) compares names. A `None` name next
  to any string name makes `sorted` raise `TypeError`. The model returns
  `Failure(UnorderableNames)` in that case. With a single run, no
  comparison happens and a `None` name is fine.
- A prefix spec without any `/` has the empty `osp.dirname` (line 224).
  `os.listdir('')` (line 228) raises on every system, so such a spec
  always fails (`Resolver.BarePrefixFails`).
- The tags of a run are drawn (lines 150-156) before its `progress.txt`
  is read (line 158). A run whose table cannot be read still advances
  `exp_idx` and its label's unit count.
- Choosing `AverageEpRet` when it is absent raises `KeyError` (line 170).
  Inserting a synthetic column whose name already exists raises
  `ValueError` (lines 167-170). Neither is caught, so `Frames.Decorate`
  fails in both cases, and the first run that fails ends the call.
- Smoothing assigns the `'same'` convolution back to the frame (line 43).
  When the series is shorter than the window, that convolution has the
  window's length, so the assignment raises. The model returns
  `LengthMismatch` here. An empty series makes `np.convolve` itself raise
  (`EmptySeries`).
- The comment on lines 33-36 describes a symmetric window of width
  `2k+1`. For an even width, numpy's `'same'` mode centres the window one
  place to the left. The window of entry `i` is therefore
  `[i - w/2, i + ceil(w/2) - 1]`, and the model uses exactly that.

## Model

| member | source | states |
|---|---|---|
| Resolver.ResolveSpec | spinup_utils/plot.py:220-229 | An existing directory ending in `/` resolves to exactly itself. Any other spec lists `dirname(spec)` and fails exactly when `dirname(spec)` is the empty string or cannot be listed, and then with `ListDirFailed(dirname(spec))`, the `FileNotFoundError` of line 228. On success the result is sorted, is a permutation of the joined children whose names contain the last `/`-segment, and holds a path iff it is such a join. |
| Resolver.ListDir | spinup_utils/plot.py:228 | `os.listdir(path)` returns the listing of a listable directory and raises `ListDirFailed(path)` otherwise; the empty path always raises. |
| Resolver.ResolveAll | spinup_utils/plot.py:219-229 | Resolution of all specs succeeds iff every single spec resolves; otherwise it fails with the error of the first spec that fails, every earlier spec having resolved. |
| Resolver.BarePrefixFails | spinup_utils/plot.py:224-228 | A prefix without any `/` has the empty base directory, and listing it always raises. |
| Resolver.ResolveAllOne | spinup_utils/plot.py:220-229 | Resolving a single spec gives exactly what that spec resolves to. |
| Resolver.ResolveAllAppend | spinup_utils/plot.py:220-229 | Resolving `xs + ys` fails with the first failure of `xs` if `xs` fails, with the failure of `ys` if only `ys` fails, and otherwise is the resolution of `xs` followed by that of `ys`, in input order. |
| Resolver.ApplyRules | spinup_utils/plot.py:236-239 | Every kept path contains all `select` substrings and no `exclude` substring. Every input path that does is kept. With both rules absent, the list is unchanged. |
| Resolver.ApplyRulesIsFilter | spinup_utils/plot.py:236-239 | The two comprehensions together are one order-preserving filter by "contains every select and no exclude substring", so the output is a subsequence of the input. |
| Resolver.ResolveLogdirs | spinup_utils/plot.py:219-249 | A listing failure propagates. Otherwise the call succeeds iff the legend is absent, empty, or as long as the filtered list; then it returns the filtered list, and else it fails with `LegendMismatch`, before any run is read. |
| Paths.JoinKeepsName | spinup_utils/plot.py:225 | Joining a directory entry name to any base leaves that name as the last path segment. |
| Paths.DirnameOfJoin | spinup_utils/plot.py:224-225 | `dirname(join(base, name))` is `base` for a base without a trailing separator. |
| Paths.SplitAtLastSep | spinup_utils/plot.py:226 | A path is its head up to the last `/` followed by the last segment, which holds no `/`. |
| Text.ContainsSpec | spinup_utils/plot.py:229 | The substring test `needle in hay` holds iff some window of `hay` equals `needle`. |
| Text.LessEqTotal | spinup_utils/plot.py:229 | Python string order is total. |
| Text.LessEqTransitive | spinup_utils/plot.py:229 | Python string order is transitive. |
| Text.LessEqAntisymmetric | spinup_utils/plot.py:144 | Strings that sort both ways are equal, so a sort by name has one answer. |
| Seqs.Sort | spinup_utils/plot.py:229 | `sorted` on strings returns an ascending permutation of its input. |
| Seqs.SortedUnique | spinup_utils/plot.py:144 | Any two ascending permutations of the same strings are identical. |
| Seqs.FilterIsSubsequence | spinup_utils/plot.py:237 | A list comprehension with a condition keeps a subsequence of its input, in order. |
| Seqs.FilterMembers | spinup_utils/plot.py:237-239 | A filter keeps every accepted element and nothing else. |
| Collector.Discover | spinup_utils/plot.py:127-139 | Every recorded run is the name and root of a walked directory holding `progress.txt` whose `config.json` loaded. |
| Collector.DiscoverComplete | spinup_utils/plot.py:127-139 | Every walked directory holding `progress.txt` whose `config.json` loaded yields its run. |
| Collector.DiscoverKeepsWalkOrder | spinup_utils/plot.py:127-140 | A run that is last of its name among the recorded runs comes from the last recorded directory of the walk with that name. |
| Collector.CollectTakesLastWalked | spinup_utils/plot.py:127-146 | Each collected run is the name and root of the last recorded directory of the walk carrying that name. |
| Collector.LastRootsIsLast | spinup_utils/plot.py:140 | In the name-to-root dict, each name maps to the root of its last occurrence in walk order. |
| Collector.Collect | spinup_utils/plot.py:140-146 | Collection fails exactly when two or more distinct names include `None`. On success the names strictly ascend, the emitted names are exactly the recorded ones, and each emitted root is the last one walked under its name. |
| Collector.NameOrder | spinup_utils/plot.py:144 | `sorted` over distinct string names returns the same names, as many as given, in strictly ascending order. |
| Collector.Arrange | spinup_utils/plot.py:140-146 | One run per distinct recorded name, in strictly ascending name order. |
| Collector.UnrecordedIsIgnored | spinup_utils/plot.py:128-139 | Removing a directory without `progress.txt`, or one whose `config.json` fails, leaves the collected runs unchanged. |
| Labels.FirstTruthy | spinup_utils/plot.py:150 | `condition or exp_name or 'exp'` is the first candidate that is present and non-empty, else the fallback, and it is never empty. |
| Labels.Condition2Injective | spinup_utils/plot.py:151 | Equal secondary labels come from the same label and the same counter, so runs never share one. |
| Text.DecimalRoundTrip | spinup_utils/plot.py:151 | `str(n)` for a counter reads back as `n`. |
| Labels.Assign | spinup_utils/plot.py:150-156 | One step: the unit is the label's previous count, or 0 when absent. The secondary label uses `exp_idx` before the increment. `exp_idx` and the label's count each go up by one, and every other label is untouched. |
| Labels.AssignAllSpec | spinup_utils/plot.py:149-156 | Over a run sequence: `exp_idx` grows by the number of runs, and run `k` gets counter `exp_idx + k`. The unit of a run is its label's starting count plus the earlier occurrences of that label, and final counts grow by the occurrences. |
| Labels.AssignAllAppend | spinup_utils/plot.py:22-24 | The registry carries over: two calls in a row tag exactly as one call over both run lists. |
| Labels.FreshUnitsCount | spinup_utils/plot.py:23-24 | From the import-time state, the runs of each label get units 0, 1, 2, … in processing order. |
| Frames.Get | spinup_utils/plot.py:170 | `exp_data[performance]` returns that column's cells, one per row, iff the column exists, and raises `MissingColumn` (a `KeyError`) otherwise. |
| Frames.Append | spinup_utils/plot.py:167-170 | Appending a column fails iff the name exists. Otherwise it adds exactly one column at the end and keeps the frame well formed. |
| Frames.Decorate | spinup_utils/plot.py:166-170 | A tagged frame keeps the original columns in place and gains exactly `Unit`, `Condition1`, `Condition2`, `Performance` at the end. The first three broadcast the run's tag. `Performance` is a copy of `TestSuccess` if present, else of `AverageEpRet`. |
| Frames.AppendTags | spinup_utils/plot.py:167-169 | The three identity inserts succeed iff none of `Unit`, `Condition1`, `Condition2` is taken, and then append exactly those columns broadcasting the tag; otherwise the first taken name in that order is the `ValueError` raised. |
| Frames.DecorateRaises | spinup_utils/plot.py:166-170 | A frame that cannot be tagged raises the `ValueError` of the first identity column already present; else the `KeyError` for the chosen metric (`TestSuccess` if present, else `AverageEpRet`) when it is missing; else the `ValueError` for `Performance`. |
| Frames.DecorateSucceeds | spinup_utils/plot.py:166-170 | Tagging succeeds iff none of the four synthetic names is taken and one of the two metric columns exists. |
| Smoothing.ConvolveSame | spinup_utils/plot.py:42 | `np.convolve(x, ones(w), 'same')` for `w <= len(x)` has `len(x)` entries, entry `i` being entry `i + (w - 1) // 2` of the full convolution: numpy centres the output, so the sampling starts `(w - 1) // 2` places in. |
| Smoothing.ConvolveSameWindow | spinup_utils/plot.py:42 | With that offset, entry `i` is the sum of `x` over `[i - w//2, i + ceil(w/2) - 1]` clipped to the series: for even `w` the window reaches one place further left than right. |
| Smoothing.KernelSumIsWindowSum | spinup_utils/plot.py:42 | An entry of the full convolution with `ones(w)` is the sum of the part of its window that overlaps the series. |
| Smoothing.DenominatorCounts | spinup_utils/plot.py:41-42 | The convolution of the ones series counts the samples in each truncated window, which is at least one. |
| Smoothing.SmoothSeries | spinup_utils/plot.py:38-42 | For `w <= len(x)` the normalised convolution keeps the length. Entry `i` is the mean of `x[j]` over `[i - w/2, i + ceil(w/2) - 1]` clipped to the series. |
| Smoothing.WidthOneIsIdentity | spinup_utils/plot.py:31-42 | A window of width one leaves the series unchanged. |
| Smoothing.SmoothingStaysInRange | spinup_utils/plot.py:38-42 | Smoothed values stay within any bounds of the raw values. |
| Smoothing.SmoothColumn | spinup_utils/plot.py:31-43 | With `smooth <= 1` the frame is returned unchanged. Otherwise each error case is reported: missing column, empty series, strings, or a series shorter than the window. On success only the value column changes, in place, to the window means. |
| Smoothing.SmoothAll | spinup_utils/plot.py:39-51 | Every run is smoothed, in the given order and with nothing reordered; it succeeds iff every run smooths, and otherwise fails with the error of the first run that fails, every earlier run having smoothed. |
| Loader.ReadableMembers | spinup_utils/plot.py:158-165 | The runs that reach line 166 are the collected runs whose `progress.txt` reads, each with its own tag, in collected order, and none of those is missed. |
| Wrappers.TryMap | spinup_utils/plot.py:149-171 | A loop whose body can raise succeeds iff every step succeeds, then yields the step results in order; otherwise it raises the error of the first step that fails. |
| Wrappers.TryConcat | spinup_utils/plot.py:219-229 | A loop that extends a list with each step's results succeeds iff every step succeeds; otherwise it raises the error of the first step that fails, every earlier step having succeeded. |
| Wrappers.TryConcatAppend | spinup_utils/plot.py:219-229 | Running the loop over `xs + ys` raises the first failure of `xs`, else that of `ys`, else yields the results for `xs` followed by those for `ys`. |
| Loader.DecorateAll | spinup_utils/plot.py:166-171 | Over the readable runs: success iff every run decorates, frame `j` is run `j`'s decorated table, and otherwise the error is that of the first run that fails. |
| Loader.LoadTagged | spinup_utils/plot.py:149-171 | The loop that skips unreadable runs equals decorating the readable runs in order, so it raises at the first run that cannot be decorated; every frame is well formed. |
| Loader.GetDatasets | spinup_utils/plot.py:115-171 | A failing sort comes first. Otherwise one call advances `exp_idx` by the number of collected runs, including unreadable ones, leaves the registry as the tagging of those runs' labels in order, and returns, or fails like, the readable runs decorated with their tags. |
| Loader.ExpectedTags | spinup_utils/plot.py:149-171 | Frame `j` is the table of a collected, readable run `k`, decorated with label `condition or exp_name or 'exp'`, counter `exp_idx + k`, and unit equal to the label's start count plus its earlier occurrences. |
| Loader.LoadAllOne | spinup_utils/plot.py:252-258 | A single directory is one call of `get_datasets` with its condition. |
| Loader.LoadAllAppend | spinup_utils/plot.py:252-258 | The directories are processed in order: the registry carries over between groups, the frames are concatenated, and the first failure ends the call. |
| Loader.LoadAll | spinup_utils/plot.py:252-258 | Over all resolved directories, the final registry is the tagging of the concatenated label trace, in processing order. |
| Loader.Conditions | spinup_utils/plot.py:253-258 | With a non-empty legend, directory `i` uses legend entry `i` as its condition. Otherwise no condition is passed. |
| Loader.GetAllDatasets | spinup_utils/plot.py:210-259 | A resolution or legend failure surfaces before any run is loaded. Otherwise the result is loading the filtered directories in order, each with its legend entry as condition. On success, `exp_idx` grows by the number of runs processed, and each label's count grows by its occurrences in the processing order. |

## Left out

- Rendering (`sns.tsplot`, palette, legend layout, the scientific-notation switch of line 107, `tight_layout`, `savefig`, `show`): presentation only, with no data logic.
- `make_plots` and `main`: argument parsing and dispatch. The dynamic `getattr(np, estimator)` lookup is a foreign call.
- Reading files: `json.load` and `pd.read_table` are abstracted as inputs (`WalkEntry.config`, `Loader.Progress`).
- The `os.walk` traversal order is an input. The model takes the walk as a list.
- The `print` diagnostics, and the commented-out legacy loop of lines 172-206.
- The concatenation into one frame (line 46) and the grouping done by the plotting library. Line 51 sorts a copy that is thrown away, so the model has no member for it; `Smoothing.SmoothAll` keeps the dataset order.
- Smoothing.SmoothSeries: computed over exact reals, not IEEE doubles, so rounding in the convolution and division is not modelled.
- Frames.Decorate: the `Unit` column holds the unit as a real number rather than a pandas integer column.
- Collector.WalkEntry: `exp_name` is modelled as a string or absent/null only; other JSON values are not modelled. For them Python's behaviour depends on the case: an unhashable list or object raises at the dict comprehension of line 140, a number next to a string or `None` name raises `TypeError` in the sort of line 144, a number combined with a falsy condition reaches `condition1 + '-'` at line 151 and raises there (a falsy `0` falls through to `'exp'` instead), and names that are all numbers with a legend entry as condition load normally.
- Loader.GetDatasets: in the source a failing `Decorate` leaves the global counters advanced when the exception escapes. Since nothing catches it, the model returns no registry on failure.
- Paths: only the POSIX separator `/` and `posixpath` behaviour of `os.sep`, `osp.dirname` and `os.path.join` are modelled; Windows `ntpath` semantics (`\` as a separator, drive letters) are not.
