# Per-rule timing aggregation and the content-hash cache, in Dafny

This project models two small stateful components of the semgrep repository and
proves properties of the models.

**Per-rule timing aggregation** (`perf/RepositoryTimePerRule.py`, module
`RuleTiming`). `TotalTimeAndTargetNum` is a (time, target count) pair with
componentwise addition (`Add`, for `__add__`) and an average
(`ReturnAverage`). A `RepositoryTimePerRule` object takes the `--time` output
of one repository at a time. For that repository it stores
each rule's total over all targets, sorted by descending time. It also folds
each rule's strictly positive times, with the number of such times, into a
cross-repository table. `_calculate_time_per_rule` turns that table into
per-rule averages, sorted by descending average.

Python dicts keep insertion order, and `sorted` is stable, so the order of the
dicts decides how ties come out. The model therefore keeps every dict of the
timing module as the list of its items in insertion order (module `PyDict`),
and `d[k] = v` is `Put`.
`sorted(..., key=lambda item: -item[1])` is modelled as a stable insertion sort,
`SortByTimeDesc` (module `DescendingSort`), which gives the same output as any
stable sort. Times are exact reals.

The model follows the code on paths the happy case does not reach:
- `list(map(add, parse_times, total))` stops at the shorter list (`ZipAdd`).
- `dict(zip(rule_ids, totals))` does the same, and a repeated rule id keeps its
  first position with its last value (`ZipToDict`).
- A positive time at an index with no rule id makes `rule_ids[idx]` raise
  IndexError before anything is written (`RuleIndexOutOfRange`).
- Undecodable input and a missing `time` key end the call before anything is
  written (`NotJson`, `NoTimeKey`; the source prints a message and calls
  `sys.exit(1)`).

**Content-hash cache** (`semgrep/semgrep/content_hash_store.py`, module
`ContentHash`). `ContentHashStore` keeps an in-memory table: patterns hash, then
file hash, then the cached list. It also keeps `dirty`, the keys saved since the
last flush. The cache directory is the map `disk` from (patterns hash, file
hash) to contents. Two quirks of the code are kept as they are:
- `load_entry` tests the truthiness of the cached list, so a cached `[]` counts
  as a miss.
- `flush` reads the table with its two keys swapped, as
  `semgrep_md5_hash[file_hash][patterns_hash]`.

The table is taken to be a `defaultdict` of `defaultdict(list)`. The swapped
read then stores an empty list when the cell is missing, and writes that empty
list to disk. The model does this too (`Vivify`, `DefaultRead`).

The model covers these two components only: the per-rule timing aggregation of
the performance scripts, and semgrep's content-hash cache store.
The rest of the benchmark harness (runner, result normaliser, diff engine,
throughput metrics) is not part of this model.

## Model

| member | source | states |
|---|---|---|
| `RuleTiming.AddCommutes` | perf/RepositoryTimePerRule.py:14-17 | `a + b == b + a` |
| `RuleTiming.AddAssociates` | perf/RepositoryTimePerRule.py:14-17 | `(a + b) + c == a + (b + c)` |
| `RuleTiming.ZeroIsIdentity` | perf/RepositoryTimePerRule.py:10-17 | the default `(0.0, 0)` is a two-sided identity of `+` |
| `RuleTiming.ReturnAverage` | perf/RepositoryTimePerRule.py:19-20 | the average times the count gives back the total; it is positive when the count and the total are |
| `RuleTiming.RuleIds` | perf/RepositoryTimePerRule.py:50-52 | `rule_ids` has one entry per element of `time.rules`, each that element's `id`, in order |
| `RuleTiming.CollectRuleIds` | perf/RepositoryTimePerRule.py:50-52 | the loop builds exactly `RuleIds` of the rules, so its result has the length and elements that `RuleIds`'s contract states |
| `RuleTiming.AccumulateTarget` | perf/RepositoryTimePerRule.py:60-62 | the loop over one target's times hits IndexError exactly when some positive time has no rule id; otherwise it adds each positive time, with count 1, to its rule's entry (`AccumTarget`) |
| `RuleTiming.AccumulateTargets` | perf/RepositoryTimePerRule.py:55-62 | the loop over the targets either hits IndexError, exactly when some positive time has no rule id, or ends with the vector totals and the positive-only dict |
| `RuleTiming.TotalsAreColumnSums` | perf/RepositoryTimePerRule.py:55-59 | when every target has one time per rule, entry `i` of the accumulated vector is the sum of column `i` over the targets (0.0 with no targets) |
| `RuleTiming.ZipDictOfDistinct` | perf/RepositoryTimePerRule.py:63 | with distinct rule ids, `dict(zip(rule_ids, totals))` is the zipped list in rule-id order |
| `RuleTiming.RepoTimesIsSortedColumnSums` | perf/RepositoryTimePerRule.py:50-64 | with one time per rule per target and distinct ids, the stored entry is the rule-ordered column sums, stably sorted by descending time |
| `RuleTiming.RepoTimesHoldsColumnSums` | perf/RepositoryTimePerRule.py:50-64 | under the same conditions the stored entry maps each rule id `rule_ids[i]` to the sum of column `i`, has one item per rule, and holds no other key |
| `RuleTiming.RepoTimesOrder` | perf/RepositoryTimePerRule.py:64 | the stored entry is in non-increasing time order, and rules with equal time keep their rule-id order |
| `RuleTiming.AccumTargetGet` | perf/RepositoryTimePerRule.py:60-62 | one target adds to rule `k` exactly its positive times at indices whose id is `k`, with one count each; non-positive times add nothing |
| `RuleTiming.NoZeroesGet` | perf/RepositoryTimePerRule.py:57-62 | the positive-only dict has an entry for `k` exactly when `k` has a positive time, and then holds the sum and the number of those times |
| `RuleTiming.NoZeroesCounted` | perf/RepositoryTimePerRule.py:57-62 | every entry of the positive-only dict has a count of at least 1 and a positive time, and its keys are distinct |
| `RuleTiming.MergeIntoGet` | perf/RepositoryTimePerRule.py:66-69 | folding the positive-only dict into the table adds to each key the sum of its items and leaves keys without items unchanged |
| `RuleTiming.NewTableGet` | perf/RepositoryTimePerRule.py:56-69 | a recorded document adds to each rule exactly the sum and the number of its strictly positive times; a rule without one keeps its entry, or its absence |
| `RuleTiming.NewTableGetRule` | perf/RepositoryTimePerRule.py:56-69 | with one time per rule per target and distinct ids, rule `i` gains the sum of its positive times and the number of targets where it was positive; a rule positive nowhere is untouched |
| `RuleTiming.NonPositiveTimesLeaveEntry` | perf/RepositoryTimePerRule.py:61 | a rule whose times are all zero or negative keeps its cross-repository entry as it was |
| `RuleTiming.MergeCounts` | perf/RepositoryTimePerRule.py:66-69 | the merge loop leaves the table equal to `MergeInto` of the positive-only dict, with every entry still counting at least one target and the keys distinct |
| `RuleTiming.MergeIntoCounted` | perf/RepositoryTimePerRule.py:67-69 | folding counted amounts into a table whose entries all count at least one target keeps that so, so the average never divides by zero |
| `RuleTiming.TimePerRuleSpec` | perf/RepositoryTimePerRule.py:33-37 | the averages dict has exactly the table's keys, each mapped to its `return_average`, in non-increasing order of average |
| `RuleTiming.RepositoryTimePerRule.constructor` | perf/RepositoryTimePerRule.py:23-31 | a new object starts with both tables empty, and so satisfies the invariant that every table entry counts at least one target |
| `RuleTiming.RepositoryTimePerRule.CalculateTimePerRule` | perf/RepositoryTimePerRule.py:33-37 | `_calculate_time_per_rule` returns the table's keys with their averages, sorted by descending average, one item per table entry |
| `RuleTiming.RepositoryTimePerRule.TimesPerFileToTimesPerRule` | perf/RepositoryTimePerRule.py:39-69 | a rejected document changes neither table; a recorded one replaces only `repo_name`'s entry, with its sorted totals, and folds its positive times into the other table, keeping the invariant |
| `RuleTiming.RepositoryTimePerRule.OutputRecord` | perf/RepositoryTimePerRule.py:72-76 | the output record pairs the per-repository table with the sorted averages |
| `PyDict.Put` | perf/RepositoryTimePerRule.py:62 | `d[k] = v`: assigning an existing key leaves the length unchanged (what happens at each position is `PutItems`); a new key is appended at the end |
| `PyDict.PutItems` | perf/RepositoryTimePerRule.py:69 | assignment keeps every position's key, and each item is either the old one or the new `(k, v)` |
| `PyDict.GetPut` | perf/RepositoryTimePerRule.py:64 | assigning one dict key changes what that key reads and no other key; so the entries of the other repositories are unchanged |
| `DescendingSort.SortByTimeDescSpec` | perf/RepositoryTimePerRule.py:37 | `sorted(key=-time)` returns a permutation in non-increasing time order, and items with equal time keep their input order |
| `DescendingSort.SortKeepsItems` | perf/RepositoryTimePerRule.py:64 | sorting a dict's items keeps the keys distinct and every key's value |
| `ContentHash.ContentHashStore.Contains` | semgrep/semgrep/content_hash_store.py:21-22 | `contains(f, p)` holds iff `f` is a key of the inner table for `p` |
| `ContentHash.ContentHashStore.Get` | semgrep/semgrep/content_hash_store.py:24-27 | `_get(f, p)` is the cached list when `contains(f, p)` holds and `None` otherwise |
| `ContentHash.ContentHashStore.constructor` | semgrep/semgrep/content_hash_store.py:11-19 | a new store has an empty table, an empty `dirty` list and the given cache directory |
| `ContentHash.ContentHashStore.SaveEntry` | semgrep/semgrep/content_hash_store.py:29-31 | after `save_entry(f, p, c)`, `contains(f, p)` holds and `_get(f, p)` is `c`; `(p, f)` is appended to `dirty`; no other cell and no file changes |
| `ContentHash.LookupStore` | semgrep/semgrep/content_hash_store.py:30 | assigning `[p][f]` changes that cell only |
| `ContentHash.ContentHashStore.LoadEntry` | semgrep/semgrep/content_hash_store.py:33-45 | a truthy cached value is returned with nothing changed; otherwise a cache file, if present, is loaded into `[p][f]` and returned; otherwise `_get`'s value is returned unchanged (`None` when neither exists); `dirty` never changes |
| `ContentHash.ContentHashStore.Flush` | semgrep/semgrep/content_hash_store.py:47-56 | `dirty` becomes empty; the cache directory and table become the flushed ones; no cell that existed before changes |
| `ContentHash.FlushedDiskSpec` | semgrep/semgrep/content_hash_store.py:50-56 | after flush, each dirty key `(p, f)` has a file holding the swapped cell `[f][p]` (`[]` if missing); every other file is as before |
| `ContentHash.FlushedDiskKeys` | semgrep/semgrep/content_hash_store.py:50-56 | the files after flush are the old ones plus one per dirty key, and nothing else |
| `ContentHash.FlushedMemoryLookup` | semgrep/semgrep/content_hash_store.py:55 | flush keeps every existing cell's value; a missing cell gains `[]` iff its swapped key was dirty |
| `ContentHash.SwappedFlushLosesEntry` | semgrep/semgrep/content_hash_store.py:55 | after `save_entry("f", "p", [x])` and `flush()`, the file for ("p", "f") holds `[]`, not `[x]` |
| `ContentHash.IntendedFlushPersists` | semgrep/semgrep/content_hash_store.py:55 | a flush that reads `[p][f]` writes each dirty key's cached list to its file and touches no other file |
| `ContentHash.IntendedFlushOfStore` | semgrep/semgrep/content_hash_store.py:47-56 | for a store whose dirty keys are all cached (the class invariant), the corrected flush writes each dirty key's file with what `_get` returns for it, and leaves the set of other files as it was |

## Findings

| source | as written | input that shows it | evidently intended | confidence | as-written member | corrected member |
|---|---|---|---|---|---|---|
| semgrep/semgrep/content_hash_store.py:55 | `flush` dumps `semgrep_md5_hash[file_hash][patterns_hash]`, swapping the keys that `save_entry` stored under (line 30) | `save_entry("f", "p", [x])`, then `flush()`: the file for ("p", "f") receives `[]`, and the table gains a cell `["f"]["p"] == []` | dump `semgrep_md5_hash[patterns_hash][file_hash]`, so each file holds the saved list | high, not executed | `ContentHash.SwappedFlushLosesEntry` | `ContentHash.IntendedFlushPersists` |

The class `ContentHash.ContentHashStore` keeps the as-written flush, because
it models the code. `IntendedFlushedDisk` is the corrected definition, and
`IntendedFlushPersists` proves that it persists every saved entry.

## Left out

- `ContentHashStore.git_hash` and `md5_hash`: they run git in a subprocess, hash
  with MD5 and read files. Hashes are opaque strings here.
- Pickle encoding, directory creation and path joining in `flush` and
  `load_entry`: the cache directory is the map `disk`. A hash containing a path
  separator, which could make two keys share one file, is not modelled.
- The `print` diagnostics of both files: they are output only. The
  `sys.exit(1)` calls are the outcomes `NotJson` and `NoTimeKey`.
- `json.loads` and UTF-8 decoding: the input is the decoded `Document`, or
  `Undecodable`.
- A `time` object without `rules` or `targets`, a rule without `id`, a target
  without `parse_times`, and non-numeric times (KeyError or TypeError in the
  source): the input record always has these fields, with real times.
- The file write in `print_repo_to_times_per_rule`: `OutputRecord` returns the
  record that would be serialised.
- Floating-point rounding: sums and averages are exact reals.
- Shared state between instances: the mutable default arguments of
  `RepositoryTimePerRule.__init__`, and the class-level `semgrep_md5_hash` and
  `dirty` of `ContentHashStore`, are shared by all instances in Python. Here
  each object owns fresh, empty state. The optional table arguments of the
  constructor are not modelled.
- The cache directory is a class attribute naming one fixed directory, shared
  by every store and by other processes. Here `disk` belongs to one store and
  changes only through its own `Flush`. So `LoadEntry`'s promise that a missing
  file leaves the result as `_get` gave it assumes that nobody else writes the
  cache directory meanwhile.
- ContentHash.ContentHashStore.SaveEntry: `contents` is any Python value in the
  source; the model takes a list (`seq<T>`, as the table's annotation says).
  `Truthy` is Python truthiness only for lists and `None`. Other falsy values
  such as `0`, `""` or `{}` are not modelled, and neither is `load_entry`'s
  treatment of them as misses. Cached lists are values here, not shared
  objects. In the source, `save_entry` stores the caller's own list, and
  `_get` and `load_entry` return that same object, so a caller that later
  changes it changes the cached entry and what a later `flush` writes; one list
  saved under two keys is one shared cell. `SaveEntry`'s `Get(..) == Some(contents)`
  and "no other cell changes" hold in Python only while nobody changes those
  lists.
- ContentHash.ContentHashStore.Contains: in the source, reading the outer key
  creates an empty inner table for it. No operation can observe this, so the
  model reads a missing outer key as an empty inner table without storing one.
- `semgrep/util.py`, which defines `default_dict_dict_of_list`, is not part of
  this model. The model assumes `defaultdict(lambda: defaultdict(list))`, which
  is what the name and the annotation `Dict[str, Dict[str, List[Any]]]` say.
- RuleTiming.ReturnAverage: requires a non-zero count. Python raises
  ZeroDivisionError instead, and the object's invariant shows that this never
  happens for entries of the table.
- RuleTiming.RepoTimesHoldsColumnSums: states the per-rule sums only when each
  target has exactly one time per rule and the rule ids are distinct. The
  method's contract, through `RepoTimes`, covers every input.
- RuleTiming.RepoTimesOrder: states the tie order only under the same two
  conditions, where it is rule-id order.
- RuleTiming.NewTableGetRule: states the per-target count only under the same
  two conditions; `RuleTiming.NewTableGet` covers every input.
