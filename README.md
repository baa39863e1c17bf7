# Episodic few-shot task sampling, modelled in Dafny

This project models the task-sampling engine of learn2learn
(`learn2learn/data/task_generator.py`) and proves properties of it. The engine has
four parts:

- **`MetaDataset`** wraps a collection of (feature, label) records. It scans the
  records once and builds a map from each label to the positions that carry it. The
  distinct labels are kept in first-appearance order.
- **`LabelEncoder`** maps a duplicate-free class list to the indices 0..n-1 and back.
- **`TaskGenerator`** works in four stages:
  - it settles the classes and checks `ways` against them;
  - it stores its tasks: every ordered `ways`-permutation of the classes, `n` random
    draws, or a caller-given list, each checked;
  - it samples episodes: it picks a task, draws `shots` positions without replacement
    for each of the task's classes, and labels them with the class's encoded index in
    contiguous per-class blocks;
  - it walks its stored tasks with a mutable cursor.
- **`NShotKWayTaskSampler`** builds one group of positions per label id. Each episode
  picks groups through a random permutation, takes `shots + query` positions from each
  group through another permutation, and flattens the stacked rows in their transposed,
  interleaved layout.

Randomness becomes parameters. Every property holds for any choice the random source
could make:

- `random.sample(classes, k)` and `np.random.choice(bucket, s, replace=False)` return
  `k` entries taken at distinct positions of the population (`Seqs.IsSample`);
- `torch.randperm(n)` returns a permutation of 0..n-1 (`Seqs.IsPermutation`);
- `random.randint(0, len(tasks) - 1)` returns a valid index (`pick < |tasks|`).

Python exceptions and failed `assert`s become constructors of `Outcomes.Error`, one per
kind of failure. `TooManyWays` stands for both `ways` checks: the one of `TaskGenerator`
(`learn2learn/data/task_generator.py:156-157`) and the one of `NShotKWayTaskSampler`
(`learn2learn/data/task_generator.py:312-314`). The task generator keeps the cursor
`tasks_idx` as the one mutable field of a `class`. Its configuration fields are
`const`. The scans and loops of the source are methods with loop invariants. Each
method is proved against a specification function, or it states its result outright.

Files:

| file | module | content |
|---|---|---|
| `outcomes.dfy` | `Outcomes` | `Option`, `Result`, the error constructors |
| `seqs.dfy` | `Seqs` | distinctness, draws and permutations, laying blocks end to end, transposition |
| `label_index.dfy` | `LabelIndex` | records, scalar labels, label buckets, `MetaDataset` and its scan |
| `label_encoder.dfy` | `LabelEncoding` | `LabelEncoder` and its loop |
| `task_specs.dfy` | `TaskSpecs` | ordered permutations, the task checks, task generation, the construction checks |
| `task_generator.dfy` | `TaskGenerators` | episodes, the class `TaskGenerator` (construction, `sample`, iteration) |
| `nshot_sampler.dfy` | `NShotSampling` | the N-shot K-way sampler, its construction and its episodes |

Where the source's docstrings and the code disagree, the model follows the code:

- `_check_task` (`learn2learn/data/task_generator.py:274-276`) never compares a task's
  length with `ways`. A caller-given list may therefore hold tasks of any length. An
  episode of task `t` has `shots * len(t)` entries, not `shots * ways`.
- The docstring of `sample` (`learn2learn/data/task_generator.py:221-222`) says the
  labels are as many as `shots`. The code emits `shots` labels per class of the task,
  `shots * len(t)` in all (`TaskGenerators.IsEpisode`).
- The N-shot sampler rejects only `shots < 1`, although its message says "greater than 1".

Other behaviour of the N-shot sampler that the model keeps as written:

- `__iter__` yields one batch per episode; the batches are not concatenated into one.
  A batch has `(shots + query) * w` entries for `w` chosen groups when every chosen
  group holds at least `shots + query` positions (`BatchSucceeds`). The slice
  `torch.randperm(len(class_subset))[:total_subset_len]` is cut to the group's size, so
  groups that are all equally short give a shorter batch without an error, even an
  empty one (`BatchEquallyShort`). Groups whose slices differ in length make the stack
  fail (`BatchShape`).
- With a negative `ways` or `shots + query`, the slices `[:ways]` and
  `[:total_subset_len]` follow Python's rule and drop entries from the end
  (`NShotSampling.PrefixSlice`).

## Model

| member | source | states |
|---|---|---|
| Seqs.CardinalityOfElements | learn2learn/data/task_generator.py:105-106 | `len(set(s)) <= len(s)`, with equality exactly when `s` repeats no value (the duplicate test of `LabelEncoder` and `_check_task`) |
| Seqs.SampleOfDistinct | learn2learn/data/task_generator.py:189-190 | a draw without replacement from a population without repeats repeats nothing and only holds members of the population |
| Seqs.ConcatEntry | learn2learn/data/task_generator.py:255-264 | with `s` entries appended per class, entry `k` of the result is entry `k mod s` of block `k div s` |
| Seqs.InterleavedEntry | learn2learn/data/task_generator.py:334 | in a stack of rows of width `w` that is transposed and flattened, entry `k` is entry `k div len(rows)` of row `k mod len(rows)`, and there are `w * len(rows)` entries |
| Seqs.TransposeTwice | learn2learn/data/task_generator.py:334 | `.t()` loses nothing: transposing a stack twice gives the rows back |
| LabelIndex.PositionsSpec | learn2learn/data/task_generator.py:82-95 | a label's bucket holds exactly the positions that carry the label, in increasing order |
| LabelIndex.FirstAppearancesSpec | learn2learn/data/task_generator.py:67 | the label list repeats nothing and holds exactly the labels that occur |
| LabelIndex.IndexIsPartition | learn2learn/data/task_generator.py:75-95 | the keys of the label map are the labels that occur; position `i` lies in the bucket of its own label and in no other; each bucket is increasing |
| LabelIndex.MetaDataset.Indexed | learn2learn/data/task_generator.py:61-67 | in a wrapped dataset the label list repeats nothing and is exactly the map's keys, and the buckets partition the positions `0 .. len(dataset) - 1` by label |
| LabelIndex.NewMetaDataset | learn2learn/data/task_generator.py:54-95 | the scan succeeds exactly when every label reduces to a scalar; otherwise it fails at the first record that does not; on success the map and the label list are the ones the scan defines |
| LabelIndex.ScanStep | learn2learn/data/task_generator.py:94 | one scan step appends the new position to its label's bucket, or opens a new bucket and a new label entry for an unseen label |
| LabelIndex.IndexOfSnoc | learn2learn/data/task_generator.py:94 | the map for one more record is the old map with the new position appended to its label's bucket |
| LabelIndex.FirstAppearanceOccurs | learn2learn/data/task_generator.py:67 | every listed label occurs in the records |
| LabelIndex.FirstAppearanceListed | learn2learn/data/task_generator.py:67 | every record's label is listed |
| LabelIndex.FirstAppearancesOrder | learn2learn/data/task_generator.py:67 | the label list is in order of first appearance: a label listed before another occurs before every position of the later one |
| LabelIndex.FirstAppearancesSnoc | learn2learn/data/task_generator.py:67 | a label enters the label list at its first appearance only |
| LabelEncoding.NewLabelEncoder | learn2learn/data/task_generator.py:98-111 | rejects a class list with a repeated class; otherwise maps `classes[i]` to `i` and `i` back to `classes[i]`, and holds nothing else |
| LabelEncoding.EncoderRoundTrip | learn2learn/data/task_generator.py:107-111 | the two maps of an encoder are mutual inverses |
| TaskSpecs.FallingIsFactorialQuotient | learn2learn/data/task_generator.py:161 | the falling factorial `n (n-1) ... (n-r+1)` equals `n! / (n-r)!` |
| TaskSpecs.PermutationsCount | learn2learn/data/task_generator.py:161 | `permutations(classes, ways)` enumerates `n!/(n-ways)!` tuples (none when `ways > n`) |
| TaskSpecs.PermutationsSound | learn2learn/data/task_generator.py:161 | every enumerated tuple has `ways` entries taken at distinct positions of the classes |
| TaskSpecs.PermutationsComplete | learn2learn/data/task_generator.py:161 | every ordered choice of `ways` entries at distinct positions of the classes is enumerated |
| TaskSpecs.PermutationsMembership | learn2learn/data/task_generator.py:161 | a sequence is enumerated exactly when it is an ordered choice of `ways` entries at distinct positions |
| TaskSpecs.PermutationsOrderExample | learn2learn/data/task_generator.py:161 | the enumeration order is that of `itertools.permutations`: `permutations([0, 1, 2], 2)` lists `(0, 1), (0, 2), (1, 0), (1, 2), (2, 0), (2, 1)` |
| TaskSpecs.CheckClassesSpec | learn2learn/data/task_generator.py:269-272 | `_check_classes` holds exactly when every configured class is a label of the dataset |
| TaskSpecs.CheckTaskSpec | learn2learn/data/task_generator.py:274-276 | `_check_task` holds exactly when every class of the task is configured and none repeats (its length is not checked) |
| TaskSpecs.InvalidTasks | learn2learn/data/task_generator.py:278-281 | the filter keeps exactly the stored tasks that fail the task check |
| TaskSpecs.InvalidTasksEmpty | learn2learn/data/task_generator.py:278-282 | the check of all tasks passes exactly when every stored task is valid |
| TaskSpecs.GeneratedTasks | learn2learn/data/task_generator.py:178-192 | `generate_n_tasks(n)` yields `max(n, 0)` tasks, each an ordered choice of `ways` classes, valid when the classes repeat nothing |
| TaskSpecs.EnumeratedTasks | learn2learn/data/task_generator.py:160-161 | with no `tasks` argument there are `n!/(n-ways)!` stored tasks of `ways` classes each, all valid when the classes repeat nothing |
| TaskSpecs.Configure | learn2learn/data/task_generator.py:144-176 | construction succeeds exactly when there are at least `ways` classes, all of them dataset labels, `tasks` has a supported type and every stored task is valid; each failure is reported in the source's order with its own error; the last one, for invalid stored tasks, is `MalformedTasks` holding exactly the tasks `_check_tasks` rejects, in stored order |
| TaskGenerators.DrawnPositions | learn2learn/data/task_generator.py:259-260 | the positions drawn for each class of a valid task repeat nothing and all carry that class's label |
| TaskGenerators.BlockLabels | learn2learn/data/task_generator.py:262-263 | the encoded labels, `s` copies of each class index in turn, carry `k div s` at entry `k` |
| TaskGenerators.DrawnEntry | learn2learn/data/task_generator.py:255-260 | entry `k` of the drawn positions is the `k mod s`-th draw of class `k div s` and carries that class's label |
| TaskGenerators.DrawnLayout | learn2learn/data/task_generator.py:255-260 | the same for every entry, and the drawn positions number `s * len(t)` |
| TaskGenerators.DrawnSlotsDistinct | learn2learn/data/task_generator.py:257-260 | draws at two different (class, offset) slots are different positions |
| TaskGenerators.DrawnDistinct | learn2learn/data/task_generator.py:255-260 | no position is drawn twice in one episode |
| TaskGenerators.Collate | learn2learn/data/task_generator.py:266-267 | the features read at the drawn positions form an episode in block layout (`IsEpisode`) |
| TaskGenerators.TaskGenerator.constructor | learn2learn/data/task_generator.py:144-172 | stores the dataset, `ways`, `shots`, the classes and the tasks, with the cursor at 0 |
| TaskGenerators.TaskGenerator.Create | learn2learn/data/task_generator.py:144-176 | raw records with a non-scalar label fail; otherwise construction fails exactly as `Configure` does, and on success the new generator is valid with the resolved classes and tasks and the cursor at 0 |
| TaskGenerators.TaskGenerator.Request | learn2learn/data/task_generator.py:234-250 | explicit shots override the default, and with neither there is an error; an explicit task is used exactly when it passes the task check; with no task the stored task at the random index is used, and an empty task list fails |
| TaskGenerators.TaskGenerator.DrawBlocks | learn2learn/data/task_generator.py:255-264 | stops at the first class whose bucket is smaller than `s` (or `s < 0`); otherwise returns the draws laid end to end and labels whose entry `k` is `k div s` |
| TaskGenerators.TaskGenerator.DrawEpisode | learn2learn/data/task_generator.py:252-267 | the draw succeeds exactly when every class's bucket can supply `s` positions, and is then an episode in block layout with distinct positions; otherwise it names the first class whose draw fails |
| TaskGenerators.TaskGenerator.Sample | learn2learn/data/task_generator.py:214-267 | a failure to settle shots or task is passed through; otherwise the outcome is that of `DrawEpisode` for the settled shots and task |
| TaskGenerators.TaskGenerator.Iter | learn2learn/data/task_generator.py:194-196 | rewinds the cursor to 0 |
| TaskGenerators.TaskGenerator.Next | learn2learn/data/task_generator.py:201-212 | past the last task it stops and leaves the cursor; otherwise, with no default shots it fails with the missing-shots error, and with default shots its outcome is that of `sample(task=tasks[tasks_idx])` (`DrawOutcome`: a block-layout episode of that task, or the first class whose draw fails); the cursor advances exactly when the draw succeeds |
| TaskGenerators.TaskGenerator.Drain | learn2learn/data/task_generator.py:194-212 | the `i`-th episode samples the `i`-th stored task; iteration stops after exactly `len(generator)` episodes unless a draw fails, and it does not fail when every stored class has at least `shots` positions |
| NShotSampling.Max | learn2learn/data/task_generator.py:317 | `max(label)` is a label no smaller than any other |
| NShotSampling.GroupsPartition | learn2learn/data/task_generator.py:316-319 | group `i` holds exactly the positions with label `i`, in increasing order; every position with a non-negative label lies in its label's group |
| NShotSampling.DistinctLabelsFitGroups | learn2learn/data/task_generator.py:312-317 | with no negative label there are at least as many groups as distinct labels |
| NShotSampling.InterleavedTaken | learn2learn/data/task_generator.py:329-334 | rows gathered from groups through permutations, stacked, transposed and flattened, are taken in interleaved layout |
| NShotSampling.InterleavedLabels | learn2learn/data/task_generator.py:329-334 | in interleaved layout over label groups, entry `k` carries the group id chosen for column `k mod w` |
| NShotSampling.PickedDistinct | learn2learn/data/task_generator.py:331-333 | two different places of a permutation pick two different positions of an increasing group |
| NShotSampling.InterleavedEntriesDistinct | learn2learn/data/task_generator.py:328-334 | two different entries of an interleaved batch are different positions |
| NShotSampling.InterleavedDistinct | learn2learn/data/task_generator.py:328-334 | an interleaved batch repeats no position |
| NShotSampling.NShotKWayTaskSampler.ChosenGroups | learn2learn/data/task_generator.py:328 | the chosen group ids repeat nothing, are all groups, and number `min(ways, len(index_list))` for non-negative `ways` |
| NShotSampling.NShotKWayTaskSampler.RowEntries | learn2learn/data/task_generator.py:329-333 | row `c` holds, at place `j`, the entry of group `chosen[c]` at the `j`-th drawn place |
| NShotSampling.NShotKWayTaskSampler.BatchShape | learn2learn/data/task_generator.py:334 | a stack that succeeds has chosen groups, rows of one common length `h`, and `h * w` entries |
| NShotSampling.NShotKWayTaskSampler.BatchLayout | learn2learn/data/task_generator.py:324-334 | entry `k` of an episode is the `k div w`-th drawn position of the `k mod w`-th chosen group |
| NShotSampling.NShotKWayTaskSampler.BatchLabels | learn2learn/data/task_generator.py:316-334 | over the groups construction builds, entry `k` of an episode carries label `chosen[k mod w]`, and no position appears twice |
| NShotSampling.NShotKWayTaskSampler.BatchSucceeds | learn2learn/data/task_generator.py:328-334 | when some group is chosen and each chosen group has at least `shots + query` positions, the stack succeeds with `(shots + query) * w` entries |
| NShotSampling.NShotKWayTaskSampler.BatchEquallyShort | learn2learn/data/task_generator.py:331-334 | when every chosen group holds the same number `g < shots + query` of positions, the slices are cut to `g` and the stack succeeds with `g * w` entries (none when the groups are empty) |
| NShotSampling.NShotKWayTaskSampler.BatchNeedsGroups | learn2learn/data/task_generator.py:328-334 | with `ways == 0` or no groups at all, the stack of no rows fails |
| NShotSampling.NShotKWayTaskSampler.DrawBatch | learn2learn/data/task_generator.py:326-334 | the gathering loop and the stack compute `Batch` for the episode's random choices |
| NShotSampling.NShotKWayTaskSampler.Iterate | learn2learn/data/task_generator.py:321-335 | yields one batch per episode, `max(episodes, 0)` of them (`len(sampler)`), unless a stack fails; it then stops at the first failing episode with that failure |
| NShotSampling.BuildGroups | learn2learn/data/task_generator.py:316-319 | the construction loop builds `Groups`: one group per label id from 0 to `max(labels)`, each the increasing positions carrying that id |
| NShotSampling.NewSampler | learn2learn/data/task_generator.py:287-319 | fixed classes fail first, then `shots < 1`, then more ways than distinct labels, then an empty label list; otherwise the groups are the positions of each label id from 0 to the maximum label, in increasing order |

## Left out

- The optional caller-supplied `labels_to_indices` of `MetaDataset`
  (`learn2learn/data/task_generator.py:61`) is not modelled: the map is always built by
  the scan.
- The `isinstance` guards of `MetaDataset` (`learn2learn/data/task_generator.py:56-65`)
  and of `TaskGenerator` (`learn2learn/data/task_generator.py:150`) are Dafny's types.
  A `tasks` argument of an unsupported type is the `OtherType` case.
- Tensor labels: `.item()` is the `Scalar` function on a label that is either plain or a
  tensor of elements. The exception handling around it is its `None` case. The
  `torch.Tensor(label).int()` conversion of the N-shot sampler is not modelled; its
  labels are integers from the start.
- Features are opaque values, read as `records[idx].feature`. How a dataset
  materialises them is not part of this model.
- The distributions of `random.sample`, `random.randint`, `np.random.choice` and
  `torch.randperm` are not modelled; only what any one of their results satisfies is.
- TaskGenerators.TaskGenerator.Create: `ways` is a natural number, so negative `ways`
  inputs are left out. In the source a negative `ways` passes the check at
  `learn2learn/data/task_generator.py:156`. It raises inside `permutations` when `tasks`
  is None, and inside `random.sample` when `tasks` is an int `n > 0`. With a list, or an
  int `n <= 0`, nothing else reads `ways`, and the source builds a working generator.
  The model does not cover those generators.
- NShotSampling.NShotKWayTaskSampler.Iterate: Python's `len` raises on a negative
  `__len__`. The model reports `max(episodes, 0)` batches and does not model that error.
- The `fixed_classes` branch of `__iter__` (`learn2learn/data/task_generator.py:327`)
  is unreachable, because construction rejects fixed classes. No batch is modelled for it.
- `SampleDataset.__len__` and `__getitem__` are plain accessors of the record
  `SampleDataset`; they are not separate members.
- The three other `__len__` methods are plain accessors without their own contract:
  `LabelIndex.MetaDataset.Length` (`learn2learn/data/task_generator.py:72-73`),
  `TaskGenerators.TaskGenerator.Length` (`learn2learn/data/task_generator.py:198-199`) and
  `NShotSampling.NShotKWayTaskSampler.Length` (`learn2learn/data/task_generator.py:321-322`).
  The first two appear in the contracts of `MetaDataset.Indexed` and
  `TaskGenerator.Drain`. The sampler's `__len__` returns `episodes`, the count of
  batches that `NShotKWayTaskSampler.Iterate` states.
