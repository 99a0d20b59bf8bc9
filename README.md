# voluseg: cell cleaning and parameter processing in Dafny

This project models two stages of the voluseg volumetric segmentation
pipeline and proves properties of the models.

**clean_cells** (`voluseg/_steps/step5.py`) takes the candidate cells of each
colour channel and does the following:
- zeroes the time series of every cell whose series holds a NaN;
- keeps the cells whose voxels lie mostly inside the brain mask;
- builds a voxel-to-cell bucket index;
- enumerates every pair of cells that share a voxel;
- invalidates the lighter cell of every pair that overlaps and correlates;
- filters the survivors, splits their cleaned signals into corrected series
  and baselines, and assigns each voxel to the heaviest survivor there.

It skips channels whose clean file already exists, and it removes the
intermediate directories once every channel is complete. A channel that
raises after its clean file has been opened for writing (step5.py:100)
leaves that file behind. A later call then skips the channel and can
remove the intermediate directories although the file was never completed
(`Stage.RerunKeepsStrandedFile`). Once a call has removed the
intermediate directories, every later call finds all channels complete and
raises `FileNotFoundError` in `shutil.rmtree` (step5.py:124); see
"Findings".

The model works on one channel as values (module `CleanCells`). It has one
module per phase: `CellData`, `MaskValidity`, `VoxelIndex`, `CellPairs`,
`Duplicates`, `Survivors`, `Baselines` and `Ownership`. `Stage` models the
channel loop and the clean-up over an abstract set of existing clean files.
The loops that update arrays in place are methods over Dafny arrays:
- the validity flags;
- the buckets and their counters;
- duplicate removal;
- the ownership volume.

Each such method is proved equal to a function. The properties are lemmas
about that function.

The grid is linearised in C order: (x, y, z) is voxel (x·Y + y)·Z + z. So
ascending voxel numbers visit the grid in the order of the nested
comprehension at step5.py:56.

When a series holds a NaN, the code zeroes the *whole* row
(`cell_timeseries[ix] = 0` with a boolean row index, step5.py:38-41), not
just the NaN entries. The model follows the code (`CellData.ZeroNaNRow`,
`CellData.NaNZeroesWholeRow`).

**process_parameters** (`voluseg/_steps/step0.py`) validates a parameter
dictionary in this order:
1. Non-dict input.
2. Missing keys.
3. An existing parameter file.
4. Directory strings without spaces.
5. Non-negative integer and real fields.
6. Registration normalisation.
7. The planes_pad rule.

It then derives four fields:
- the majority file extension;
- the sorted volume names;
- their count `lt`;
- the diagonal affine matrix.

Finally it saves the copy. Module `Parameters` models the dictionary as a
`map<string, Value>`, where `Value` is tagged by the dynamic type the checks
test. The directory listing and "parameter file exists" are inputs.

The function returns nothing in every case. The model's `Outcome` stands for
what is observable:
- the reason a call printed an error and returned;
- the exception it lets escape;
- the dictionary it saves.

The dictionary is a value, so the caller's dictionary (deep-copied at
step0.py:10) is never changed. `Text` holds:
- code-point string order;
- ASCII `str.lower`;
- `str.split('.', 1)`.

`Ordering` holds the sort and de-duplication that stand for `np.sort` and
`np.unique`.

Three details of the code that a reader of the function might not expect:
- A string in a numeric field passes `np.isscalar` and then raises
  `TypeError` when compared with 0 (step0.py:47, 55).
- Every error message formats the offending value with `'%s' % v`. A
  tuple of other than one item (such as `()` or `('a', 'b')`) is taken as
  the argument list, so the message itself raises `TypeError`
  (step0.py:41, 48, 56).
- A `dir_output` that is neither a `str` nor an `os.PathLike` object
  (a number, None, bytes, a list) raises `TypeError` in `os.path.join`
  (step0.py:28), before the string checks run. A `pathlib.Path` gets past
  the join and the file test and is then refused by the string check at
  step0.py:40.

If no listed file name holds a '.', `list(zip(*file_names))[1]` raises
`IndexError` (step0.py:75). The model reports each of these as
`Outcome.Raised`.

## Model

| member | source | states |
|---|---|---|
| Grid.Dims.SizeIsProduct | voluseg/_steps/step5.py:48-49 | the grid has x·y·z voxels |
| Grid.Dims.Index | voluseg/_steps/step5.py:52-53 | an in-bounds coordinate has a voxel number below the grid size |
| Grid.Dims.IndexIsRowMajor | voluseg/_steps/step5.py:48-56 | the voxel number is the C-order position (x·Y + y)·Z + z |
| Grid.Dims.IndexInjective | voluseg/_steps/step5.py:52-54 | distinct in-bounds coordinates are distinct voxels |
| CellData.ZeroNaNRow | voluseg/_steps/step5.py:38-41 | a series holding a NaN becomes all zeros; any other series keeps every value |
| CellData.Clean | voluseg/_steps/step5.py:38-41 | defines NaN handling of one cell: only the series changes, never coordinates, weights or length |
| CellData.CleanAll | voluseg/_steps/step5.py:38-41 | defines the row-by-row treatment: every cell is cleaned on its own, in order |
| CellData.NaNRowCount | voluseg/_steps/step5.py:38-40 | the printed count is zero exactly when no series holds a NaN, and at most the number of cells |
| CellData.NaNRowCountIsFlagged | voluseg/_steps/step5.py:38-40 | the printed count is count_nonzero of the row flags: the number of rows holding a NaN |
| CellData.NaNZeroesWholeRow | voluseg/_steps/step5.py:38-41 | illustration on one concrete row: [1, 2, NaN, 4, 5] becomes all zeros, not [1, 2, 0, 4, 5] |
| MaskValidity.InMaskCount | voluseg/_steps/step5.py:45 | at most k of the first k slots lie in the mask |
| MaskValidity.MaskValidByCount | voluseg/_steps/step5.py:43-45 | the mean test is the count test inside > thr_mask·length, and a cell of length 0 (mean NaN) is never valid |
| MaskValidity.MaskValidExtremes | voluseg/_steps/step5.py:45 | a prefix wholly inside the mask passes any threshold below 1; one wholly outside fails any non-negative threshold |
| MaskValidity.InitialValidity | voluseg/_steps/step5.py:43-45 | flag i is the mask test of cell i alone |
| VoxelIndex.EmptyIndex | voluseg/_steps/step5.py:48-49 | every bucket starts empty and every counter at 0 |
| VoxelIndex.BuildVoxelIndex | voluseg/_steps/step5.py:48-54 | the buckets are `Buckets` of the cells and flags, and every counter equals its bucket's length |
| VoxelIndex.AppendSlots | voluseg/_steps/step5.py:50-54 | one cell's pass appends its number once per slot of its valid span on each voxel and keeps counters equal to lengths |
| VoxelIndex.AppendSlot | voluseg/_steps/step5.py:53-54 | one slot appends to its voxel's bucket, increments its counter and changes nothing else |
| VoxelIndex.BucketOccurrences | voluseg/_steps/step5.py:50-54 | cell x occurs in the bucket of v once per slot on v if x is valid, and never otherwise |
| VoxelIndex.BucketMembership | voluseg/_steps/step5.py:50-54 | cell x is in the bucket of v iff x is valid and v is among the voxels of its first l_x slots |
| VoxelIndex.BucketAscending | voluseg/_steps/step5.py:50-53 | every bucket holds cell numbers below the cell count in non-decreasing order |
| VoxelIndex.BucketStrictlyAscending | voluseg/_steps/step5.py:50-53 | when no cell repeats a voxel, every bucket is strictly ascending |
| VoxelIndex.HitsPositive | voluseg/_steps/step5.py:51-53 | a cell hits v at least once iff one of its slots lies on v |
| VoxelIndex.HitsAtMostOne | voluseg/_steps/step5.py:51-53 | a cell with distinct voxels hits each voxel at most once |
| CellPairs.CombinationsCount | voluseg/_steps/step5.py:56 | a bucket of n entries yields n(n-1)/2 combinations |
| CellPairs.PairTotal | voluseg/_steps/step5.py:56-57 | the assertion at line 57 always holds: the number of pairs is the sum over voxels of n(n-1)/2 |
| CellPairs.CombinationsMembers | voluseg/_steps/step5.py:56 | the combinations of a bucket are exactly (s[a], s[b]) for positions a < b |
| CellPairs.PairMultiplicity | voluseg/_steps/step5.py:56-60 | in an ascending bucket, (a, b) with a < b is enumerated (occurrences of a)·(occurrences of b) times |
| CellPairs.AllPairsCount | voluseg/_steps/step5.py:56-60 | over all buckets, the multiplicity of (a, b) is the sum over voxels of the products of occurrences |
| CellPairs.PairsOrdered | voluseg/_steps/step5.py:56 | every enumerated pair (a, b) has a ≤ b below the cell count, and a < b when no cell repeats a voxel |
| CellPairs.BucketsCoOccurrences | voluseg/_steps/step5.py:50-60 | the co-occurrence sum of two cells is zero unless both are valid, and then their shared slot products |
| CellPairs.PairCount | voluseg/_steps/step5.py:56-60 | the count np.unique gives (a, b) is 0 unless both are valid, else their shared slots, which is the number of shared voxels when neither repeats a voxel |
| Duplicates.PairLessIsStrictTotalOrder | voluseg/_steps/step5.py:60 | the row order of np.unique(axis=0) on pairs is a strict total order |
| Duplicates.PairIds | voluseg/_steps/step5.py:60 | pair_id is strictly ascending and holds exactly the enumerated pairs |
| Duplicates.OverlapIsIntegerTest | voluseg/_steps/step5.py:62 | c / mean(l_a, l_b) > 0.5 holds exactly when 4c > l_a + l_b |
| Duplicates.Loser | voluseg/_steps/step5.py:65 | defines argmin over two weights: the first member loses on equal weights, the second only when strictly lighter |
| Duplicates.RemoveDuplicates | voluseg/_steps/step5.py:61-65 | the flags after the loop are `Resolve` of the flags before |
| Duplicates.ResolveClosedForm | voluseg/_steps/step5.py:61-65 | a flag survives iff it was set and no triggering pair names its cell as the loser |
| Duplicates.ResolveOnlyClears | voluseg/_steps/step5.py:61-65 | duplicate removal never sets a flag, and a cell in no triggering pair keeps its flag |
| Duplicates.ResolveOrderIndependent | voluseg/_steps/step5.py:61-65 | the final flags depend only on the set of (pair, count) entries, not on their order |
| Survivors.Kept | voluseg/_steps/step5.py:68-74 | the survivor positions are ascending, flagged, and include every flagged cell; there are count_nonzero of them |
| Survivors.SelectKept | voluseg/_steps/step5.py:68-74 | boolean indexing keeps exactly the flagged elements in their original order; n = count_nonzero(cell_valids) of them |
| Baselines.Zip | voluseg/_steps/step5.py:83-85 | defines zip(*rows): as many tuples as the shortest row, tuple j holding element j of every row |
| Baselines.Unpack2 | voluseg/_steps/step5.py:85 | defines two-name unpacking: it succeeds exactly for two elements |
| Baselines.Mapped | voluseg/_steps/step5.py:80 | defines the parallel path's result: one (corrected, baseline) tuple per survivor, in order |
| Baselines.Extract | voluseg/_steps/step5.py:80-85 | defines the intended split: position m of the corrected series and of the baselines belongs to survivor m |
| Baselines.ParallelSplitsPositionally | voluseg/_steps/step5.py:80-85 | with at least one survivor, the parallel path splits into each survivor's corrected series and baseline, in order |
| Baselines.NoSurvivorFails | voluseg/_steps/step5.py:85 | with no survivor, the unpacking fails on either path |
| Baselines.SerialFallbackFailsForThree | voluseg/_steps/step5.py:83-85 | with three survivors the serial fallback fails to unpack where the parallel path succeeds |
| Baselines.SerialFallbackMispairsTwo | voluseg/_steps/step5.py:83-85 | counterexample on one concrete input: with two survivors the serial fallback returns cell 0's corrected series and baseline as the "corrected series" |
| Baselines.SerialSplitsPositionally | voluseg/_steps/step5.py:79-85 | with the serial fallback written as `list(map(get_timebase, ...))` (`SerialMap`), step5.py:85 gives every survivor its own corrected series and baseline, in order, on either path |
| Baselines.SerialMapIsMapped | voluseg/_steps/step5.py:79-83 | mapping one survivor at a time yields the same tuples, in the same order, as the parallel collect |
| Ownership.MaxWeight | voluseg/_steps/step5.py:89-95 | max(0, every bid's weight): an upper bound that is 0 or attained |
| Ownership.TakeIfHeavier | voluseg/_steps/step5.py:93-95 | a slot takes its voxel only when strictly heavier than the recorded weight; nothing else changes |
| Ownership.ClaimSlots | voluseg/_steps/step5.py:91-95 | one survivor's pass leaves the arrays as `SlotsVisit` of the arrays before |
| Ownership.SlotsVisitMeaning | voluseg/_steps/step5.py:91-95 | after a survivor's pass every voxel holds the visit of that survivor's bids for it, in slot order |
| Ownership.AssignOwnership | voluseg/_steps/step5.py:88-95 | every voxel holds the visit, from (-1, 0), of all survivor bids for it in survivor-then-slot order |
| Ownership.VisitAppend | voluseg/_steps/step5.py:90-95 | visiting two runs of bids one after the other is visiting their concatenation |
| Ownership.OwnerWeightIsMax | voluseg/_steps/step5.py:89-95 | volume_weight is max(0, the greatest bid) |
| Ownership.OwnerIsFirstMaximum | voluseg/_steps/step5.py:88-95 | volume_id is -1 iff no bid exceeds 0, else the first bid in visiting order attaining the maximum |
| Ownership.ClaimsMembers | voluseg/_steps/step5.py:90-95 | the bids for v are exactly (i, w) for survivor i and a slot of i on v with weight w |
| Ownership.OwnershipVolume | voluseg/_steps/step5.py:88-95 | volume_weight is the max; volume_id is -1 iff it is 0, else a survivor in [0, n) with a slot of that weight on v; unclaimed voxels stay (-1, 0) |
| CleanCells.SurvivorFlags | voluseg/_steps/step5.py:43-65 | the flags after mask test, index, pair enumeration and duplicate loop are `FinalFlags` |
| CleanCells.Survival | voluseg/_steps/step5.py:43-65 | a cell survives iff its mask test passes and no triggering pair names it as the lighter member |
| CleanCells.CleanChannel | voluseg/_steps/step5.py:19-115 | the catalogue holds the survivors in order, n = their count, the ownership volume with ids in [-1, n), and each survivor's own corrected series and baseline |
| Stage.RunStage | voluseg/_steps/step5.py:19-125 | the call ends as `RunOf` with rmtree as written: the channel loop ends in `Passes` state; the clean files are those before, the processed ones, and the one a channel raising after step5.py:100 left behind; when no channel raised and every channel is complete the directories are removed, and a missing one raises |
| Stage.RemoveIntermediates | voluseg/_steps/step5.py:124-125 | volumes is always gone afterwards, and cells too unless volumes was missing; as written the removal raises iff either directory is missing, and with missing directories passed over it never raises |
| Stage.RemovedOnlyWhenComplete | voluseg/_steps/step5.py:117-125 | the directories change only in a call where no channel raised and every clean file exists; a call that does not raise ends with every clean file present and both directories gone |
| Stage.RerunRaises | voluseg/_steps/step5.py:19-125 | as written, a call after one that raised nothing processes no channel, changes no clean file, and raises at the removal |
| Stage.RerunIdempotent | voluseg/_steps/step5.py:19-125 | with missing directories passed over, a call after one that raised nothing changes nothing and raises nothing |
| Stage.PassesSkipExisting | voluseg/_steps/step5.py:19-21 | channels are processed in increasing order, never one whose clean file exists |
| Stage.PassesOutcome | voluseg/_steps/step5.py:19-115 | the call raises iff some channel without a clean file fails; if none does, exactly the channels without one are processed and no file is left behind; if one does, the first such channel ends the loop, exactly the channels below it without a file were processed, and it leaves its own clean file iff it raised after creating it |
| Stage.CleanupUnlessRaised | voluseg/_steps/step5.py:100-125 | a call that raised nothing leaves every clean file; a raising channel that had not yet created its file leaves one missing; when no failing channel raises after creating its file, every clean file exists (so clean-up runs) iff no channel raised |
| Stage.RerunKeepsStrandedFile | voluseg/_steps/step5.py:19-125 | after a call whose raising channel left a partly written clean file, a second call in which nothing raises skips that channel, raises nothing and finds every channel complete, so it removes the intermediate directories the first call left |
| Stage.Rerun | voluseg/_steps/step5.py:19-21 | the channel loop of a second call after a successful one processes no channel and raises nothing |
| Stage.PassesStayRaised | voluseg/_steps/step5.py:19-21 | after a channel raises no later channel is visited |
| Text.LexLessIsStrictTotalOrder | voluseg/_steps/step0.py:75-77 | code-point string order is a strict total order |
| Text.LowerChar | voluseg/_steps/step0.py:61 | an upper-case ASCII letter becomes its lower-case form; every other character stays |
| Text.Lower | voluseg/_steps/step0.py:61 | defines str.lower: the same length, each character lower-cased |
| Text.LowerIdempotent | voluseg/_steps/step0.py:61-64 | lower-casing twice is lower-casing once, and it neither adds nor removes spaces |
| Text.FirstDot | voluseg/_steps/step0.py:74 | the position of the first '.', with no '.' before it |
| Text.SplitFirstDot | voluseg/_steps/step0.py:74 | split('.', 1) gives a stem without '.' and the rest, which joined by '.' rebuild the name |
| Text.SplitFirstDotUnique | voluseg/_steps/step0.py:74 | that split is the only one whose stem has no '.' |
| Text.SortNames | voluseg/_steps/step0.py:77 | np.sort returns the same names, each as often, in ascending order |
| Ordering.Insert | voluseg/_steps/step0.py:77 | inserting into a sorted sequence keeps it sorted and adds exactly one element |
| Ordering.Sort | voluseg/_steps/step0.py:77 | the result is sorted and a permutation of the input |
| Ordering.Dedup | voluseg/_steps/step5.py:60 | dropping repeats of a sorted sequence leaves a strictly sorted one with the same elements |
| Ordering.Unique | voluseg/_steps/step5.py:60 | np.unique: strictly ascending, holding exactly the input's elements |
| Ordering.Counts | voluseg/_steps/step5.py:60 | defines return_counts of np.unique, used for pair_count and for the file-extension counts at step0.py:75: entry k is the number of occurrences of distinct[k] |
| Parameters.Schema | voluseg/_steps/step0.py:20 | the required keys include every key the checks read |
| Parameters.ScanKeys | voluseg/_steps/step0.py:38-57 | a check loop passes iff every key passes; a reported key is listed and fails, or crashes, its check |
| Parameters.ScanKeysFirst | voluseg/_steps/step0.py:38-57 | the reported key is the first one that does not pass |
| Parameters.FieldsOkMeans | voluseg/_steps/step0.py:38-57 | the checks pass iff the four directory-like fields are strings without spaces, the integer fields non-negative whole numbers and the real fields non-negative numbers |
| Parameters.FieldsOkChecked | voluseg/_steps/step0.py:59-84 | after the checks, registration is a string and planes_pad, ds and the resolutions are numbers |
| Parameters.CheckFields | voluseg/_steps/step0.py:38-57 | passes iff the fields are ok, and its report is `FieldReport` of the dictionary |
| Parameters.FieldReportMeans | voluseg/_steps/step0.py:38-57 | the report is a save only when every check passes; otherwise it names the first key, in loop order, that fails, or raises TypeError when the first key that does not pass holds a tuple of other than one item (its message cannot be formatted) or is a numeric field holding a str or bytes |
| Parameters.TupleDirAntsReport | voluseg/_steps/step0.py:38-42 | a tuple dir_ants is refused by name when it has one item and raises TypeError at the message otherwise |
| Parameters.TupleDsReport | voluseg/_steps/step0.py:45-49 | once the directory fields pass, a tuple ds is refused by name when it has one item and raises TypeError at the message otherwise |
| Parameters.NegativeDsReportedFirst | voluseg/_steps/step0.py:45-49 | a negative ds is reported by name, whatever the later numeric fields hold, strings included |
| Parameters.PathOutputReportedByName | voluseg/_steps/step0.py:26-42 | a pathlib.Path dir_output passes os.path.join and is refused by name by the string check |
| Parameters.NormalisedRegistrationValues | voluseg/_steps/step0.py:60-66 | an accepted registration ends up None, '' or one of high, medium, low |
| Parameters.NormaliseRegistration | voluseg/_steps/step0.py:60-66 | accepts iff registration is '' or lower-cases to none, high, medium or low, and then sets it to its normalised value |
| Parameters.SuffixesMembers | voluseg/_steps/step0.py:74-75 | a suffix is collected iff some listed name with a '.' has it after its first '.' |
| Parameters.NoSuffixes | voluseg/_steps/step0.py:74-75 | there is no suffix (line 75 raises) iff no listed name holds a '.' |
| Parameters.StemsWithMembers | voluseg/_steps/step0.py:77 | a stem is selected for ext '.' + m iff stem + '.' + m is listed and the stem has no '.' |
| Parameters.ArgMax | voluseg/_steps/step0.py:76 | np.argmax returns the first position of the greatest count |
| Parameters.MajorityIsMostFrequent | voluseg/_steps/step0.py:75-76 | the chosen suffix is listed, at least as frequent as any other, and lexicographically smallest among equally frequent ones |
| Parameters.MostFrequentAmong | voluseg/_steps/step0.py:75-76 | argmax over the ascending distinct suffixes picks a most frequent suffix, the smallest among ties |
| Parameters.Diagonal | voluseg/_steps/step0.py:81-84 | defines np.diag: the square matrix with the given diagonal and zeros everywhere else |
| Parameters.WithDerived | voluseg/_steps/step0.py:87-90 | the copy gains volume_names, ext, lt and affine_mat and keeps every other field |
| Parameters.DeriveFields | voluseg/_steps/step0.py:74-90 | ext is '.' + the majority suffix, volume_names the sorted stems with it, lt their number, affine_mat diag(res_x·ds, res_y·ds, res_z, 1); nothing else changes |
| Parameters.CompleteParameters | voluseg/_steps/step0.py:59-90 | rejects iff registration or planes_pad is refused, naming a bad registration before planes_pad; raises IndexError iff accepted with no suffix; otherwise saves the normalised copy with the derived fields |
| Parameters.ProcessParameters | voluseg/_steps/step0.py:1-90 | the outcome is determined in the code's order: not a dict; missing keys; dir_output that os.path.join refuses raises TypeError; existing file; the first failing field check (`FieldReport`, which raises TypeError for a tuple whose message cannot be formatted); registration, then planes_pad; saved or IndexError iff every check passes; the saved copy is `SavedFrom` the input |

## Left out

- HDF5 reads and writes, `os.path.isfile`, `shutil.rmtree`, `os.listdir`, `os.makedirs` and `pickle.dump` are I/O. The raw cells, mask, dimensions, listing and "file exists" are inputs. The written catalogue, the processed channels and the clean-up decision are outputs. The background volume (step5.py:97-98, 115) is copied through and is not modelled.
- Spark (`SparkSession`, `broadcast`, `parallelize().map().collect()`) is distributed plumbing. The parallel path is modelled by its result, one tuple per survivor in order. Whether it fails is the parameter `parallelFails`.
- `clean_signal` is external code and is the function parameter `clean`. `np.corrcoef(...)[0, 1] > 0.5` is floating-point numerics and is the uninterpreted predicate `corr`.
- Floating point is modelled as `real`. There are no NaN weights: `np.nansum` of the weight row is a plain sum over the whole padded row. There are no float32 casts.
- The printed diagnostics are left out. For step0 they become the `Reason` of a rejection.
- Stage.RunStage: a channel's failure (any exception in its body) is the abstract set `failing`, and whether it raises after step5.py:100 has created its clean file is the set `partial`. Which inputs make a channel raise, and where, is not tied to `CleanCells.CleanChannel`; what a partly written file holds is not modelled. Which of the two intermediate directories exist is the input `dirs`.
- CleanCells.CleanChannel: models one channel with the parallel path. On the serial fallback, and on the unpacking with no survivor, it follows the corrected behaviour in "Findings". It does not raise there as the code does.
- Parameters.ProcessParameters: the `try`/`except` around saving (step0.py:92-99) is I/O. `Saved` is the dictionary the code tries to save, whether or not writing succeeds.
- Parameters.IntCheck and Parameters.RealCheck: Python ints, floats and booleans are all `Num(real)`. Complex numbers, for which `np.isreal` is false, are not modelled. `str` and `bytes` are scalars that raise TypeError when compared with 0; `pathlib.Path` objects are `Path`; tuples are `Tuple` with their length; any other non-scalar object is `Other`, whose `'%s'` formatting is taken to succeed.
- Text.Lower: lower-cases ASCII letters only. Unicode case mapping is not modelled.
- Text.LexLess: the order np.sort and np.unique use on strings is modelled as code-point lexicographic order.
- `np.unique` and `np.sort` are modelled by insertion sort and adjacent de-duplication over a strict total order. Their algorithms are not modelled, only their results.

## Findings

| source | as written | input that shows it | evidently intended | confidence | as-written member | corrected member |
|---|---|---|---|---|---|---|
| voluseg/_steps/step5.py:83 | the serial fallback `list(zip(*map(get_timebase, cell_timeseries)))` transposes once more than the parallel path, so the unpacking at line 85 sees one tuple per survivor | three survivors when the parallel computation fails: line 85 unpacks three columns into two names and raises ValueError | `timebase = list(map(get_timebase, cell_timeseries))`, giving one (corrected, baseline) pair per survivor as the parallel path does | not executed; high | Baselines.SerialFallbackFailsForThree | Baselines.SerialSplitsPositionally |
| voluseg/_steps/step5.py:83 | the same extra transposition with exactly two survivors unpacks without error but pairs the wrong series | two survivors with series [1.0] and [2.0] and baseline [0.0]: the "corrected series" are [[1.0], [0.0]] (cell 0's corrected series and baseline) instead of [[1.0], [2.0]] | each survivor's own corrected series and baseline, in order | not executed; high | Baselines.SerialFallbackMispairsTwo | Baselines.SerialSplitsPositionally |
| voluseg/_steps/step5.py:85 | with no survivor, `zip(*timebase)` is empty and `cell_timeseries1, cell_baseline1 = ...` raises ValueError on either path | a channel in which every cell fails the mask test | an empty catalogue: no corrected series and no baselines | not executed; medium | Baselines.NoSurvivorFails | CleanCells.CleanChannel |
| voluseg/_steps/step5.py:124 | `shutil.rmtree` runs whenever every clean file exists, and raises `FileNotFoundError` when the directory is already gone, so the stage is not idempotent | a second call after a call that completed every channel: it skips every channel, finds completion = 1, and raises at line 124 because the first call removed dir_output/volumes | a rerun after a completed call changes nothing and returns normally, as the skip test at step5.py:20 is meant to allow (for instance `shutil.rmtree(..., ignore_errors=True)`) | not executed; medium | Stage.RerunRaises | Stage.RerunIdempotent |

`Stage.RunStage` keeps the removal as written, because the whole stage is a model of the code and raising is its observable outcome. `Stage.RunOf` with `ignoreMissing` set is the intended behaviour, and `Stage.RerunIdempotent` is proved about it.
