# Contour counting and batch row selection

The repository holds three image-analysis scripts for fluorescence slide scans.
`main.py` is interactive; `tagged.py` and `DAPI_count.py` are batch-only.
Each script loads `.vsi` images and finds contours with OpenCV, then writes one CSV row per image.
Two parts of that work are the scripts' own logic, and this project models and proves both:

* **The contour tally** (`save_image_with_contours`):
  * A blue contour survives when its area is above 5 and its zeroth moment is non-zero.
  * A survivor is *valid* when its truncated centroid `(int(m10/m00), int(m01/m00))` lies on or inside at least one red contour.
  * `main.py` keeps `[valid, total]`.
  * `tagged.py` keeps only `valid`.
  * `DAPI_count.py` counts the contours whose area is strictly above 5.
* **The batch row selection**:
  * The scripts list directories in `sorted` order, one level (`process_bulk_slides`) or three levels (collection, slide, region).
  * They keep only paths ending in `m.vsi` (or `d.vsi` for DAPI).
  * A missing path is skipped (`main.py`) or ends the run with status 1 (`tagged.py`, `DAPI_count.py`).
  * Each image that loads gets a row of path labels followed by the count in a single field.

Everything OpenCV and Bio-Formats compute is given as data or as an oracle:

* A contour carries its `area`, `m00`, `m10` and `m01`.
* `cv.pointPolygonTest(cr, p, False)` is a parameter `test`, and the scripts' `>= 0` comparison is written out.
* The file system is a `FileSystem` value with three members, `listdir`, `pathExists` and `load`:
  * A listing that raises is `None`.
  * An image that does not load is `None`.

Files:

* `contours.dfy`:
  * the contour datatype, truncation, centroid and `any(...)`;
  * the three counts as specification functions over the contour lists (`SurvivorCount`, `ValidCount`, `AboveCount`, `Classify`), with their lemmas.
* `counting.dfy`: the generic count of the elements that pass a test, and its algebra.
* `names.dfy`:
  * Python's `str` ordering, and `sorted` as insertion sort;
  * `str.endswith`;
  * `os.path.join` (POSIX) and the `f"{a}/{b}"` join.
* `batch.dfy`:
  * The directory walk is the sequence of events the nested loops meet: a visit of a leaf entry, or a directory that cannot be listed.
  * `Run` folds those events, one step per loop turn, into the rows written so far, or into a stop that keeps them.
  * The imperative loop methods `LeafLoop`, `SlideLoop`, `BulkSlides` and `BulkRegions` are proved to compute exactly `Run` of the walk.
  * The lemmas characterise `Run` independently of the fold: which rows it writes, when it stops, in what order it writes rows, and what shape the rows have.
* `main_script.dfy`, `tagged_script.dfy`, `dapi_script.dfy`:
  * each script's counting loop, as a method proved equal to its specification function;
  * its settings (suffix, missing-file policy, join, base directory);
  * its top-level batch run with the properties that script's output has.
  * `main_script.dfy` also has `main` and `process_single_image`.

## Model

| member | source | states |
|---|---|---|
| Contours.Trunc | main.py:63-64 | `int()` truncates toward zero: the result is within 1 of the argument, on the side of zero |
| Contours.AnyOnOrInside | main.py:68-70 | `any(...)` holds exactly when some red contour's polygon test is `>= 0` at the point |
| Contours.Classify | main.py:53-80 | the `[valid, total]` tally of an image: valid <= total <= number of blue contours |
| Contours.ClassifyByPositions | main.py:54-78 | valid is the number of blue contours that survive and are on or inside some red contour; total is the number of survivors |
| Contours.DegenerateIgnored | main.py:55-62 | a contour with area <= 5 or `m00 == 0`, wherever it sits in the list, changes neither counter |
| Contours.NoReferenceNoneValid | main.py:68-74 | with no red contours valid is 0 and total still counts every survivor |
| Contours.MoreReferencesMoreValid | main.py:68-70 | more red contours never lower valid and never change total |
| Contours.ReferenceSetOnly | main.py:68-70 | only the set of red contours matters, not their order or repetition |
| Contours.BoundaryIsInside | main.py:69 | a centroid on a red contour's boundary (test result 0) makes the contour valid |
| Contours.OutsideIsInvalid | main.py:74-80 | a survivor outside every red contour counts in total but not in valid |
| Contours.SurvivorsWithinAboveCount | DAPI_count.py:58-61 | on the same list, main.py's total is at most DAPI_count.py's count |
| Contours.AboveCountByPositions | test.py:28-32 | the area tally is the number of positions with area strictly above the threshold (5 in DAPI_count.py, 50 in test.py) |
| Contours.AboveCountOne | DAPI_count.py:57-61 | one contour adds one to the area tally exactly when its area is above the threshold, so area exactly 5 is not counted, whatever the moments |
| MainScript.CountContours | main.py:53-80 | the in-place `[valid, total]` loop computes `Classify`, and valid <= total <= number of blue contours |
| TaggedScript.CountContours | tagged.py:56-81 | the valid-only loop computes `ValidCount`, which equals main.py's `count[0]`, and it is at most the number of survivors |
| DapiScript.CountContours | DAPI_count.py:56-61 | the loop computes `AboveCount` for the threshold and is at most the number of contours |
| MainScript.LoadAndCount | main.py:94-107 | `main` returns a count exactly when the image loads, and the count is that image's `Classify` tally |
| MainScript.ProcessSingleImage | main.py:124-130 | a path that does not exist or does not end in `m.vsi` is rejected; otherwise a failed load exits with status 1, and a loaded image yields its `Classify` tally, the count `main` returns and the script prints |
| Names.Sort | main.py:143 | `sorted` returns a permutation of its input in non-decreasing `str` order |
| Names.SortStrict | main.py:164 | a listing without repeated names sorts into strictly increasing order |
| Names.LeTotal | main.py:143 | Python's `str` comparison is total |
| Names.LeTransitive | main.py:143 | Python's `str` comparison is transitive |
| Names.PosixJoinKeepsSuffix | main.py:144-145 | `os.path.join(dir, name)` ends with the suffix exactly when `name` does |
| Names.SlashJoinKeepsSuffix | tagged.py:124-125 | `f"{dir}/{name}"` ends with the suffix exactly when `name` does |
| Batch.LeafLoop | main.py:168-177 | the innermost loop, from any reached state, yields `Run` of the events so far followed by its entries' visits |
| Batch.SlideLoop | main.py:166-177 | the slide loop with the region loop inside yields `Run` of the events so far followed by its block |
| Batch.BulkSlides | main.py:142-152 | the one-level loop computes `Run` of the one-level walk |
| Batch.BulkRegions | main.py:163-177 | the three nested loops compute `Run` of the three-level walk |
| Batch.FirstHalt | tagged.py:128-130 | the position of the first event that ends the run: it halts, and no earlier event does |
| Batch.RunCharacterised | tagged.py:123-133 | a run writes the rows of every event before the first halting one, then stops there with that event's reason and no further rows; with no halting event it writes all rows and finishes |
| Batch.RunStoppedPrefix | tagged.py:128-130 | once a run has stopped, later entries change nothing |
| Batch.RunOutcome | tagged.py:117-133 | a run finishes exactly when no event halts it, and a stop carries the reason of one event of the walk |
| Batch.RunFinishes | tagged.py:123-133 | a run finishes exactly when every directory lists, every suffixed path exists (or the policy skips it) and every existing suffixed path loads; it then writes one row per loaded image |
| Batch.SkipNeverStopsOnMissing | main.py:148-150 | under the skip policy no run stops because of a missing image |
| Batch.EmissionsFromVisits | main.py:151-152 | every written row carries the labels of a visited, suffixed, existing and loading path, and that image's count |
| Batch.EmissionsCount | main.py:145-152 | the rows are as many as the visits that have the suffix, exist and load |
| Batch.ReportCounts | main.py:151-152 | a property every image count has, every written row's count has |
| Batch.LabelsLessUnder | main.py:164-168 | label tuples under a common prefix are ordered by the first label where they differ |
| Batch.ListingStrict | main.py:164 | a listing without repeats, sorted, is strictly increasing |
| Batch.ConcatMapOrdered | main.py:164-168 | blocks for strictly sorted names, each ordered under its name, give an ordered walk |
| Batch.LeavesOrdered | main.py:168 | the innermost loop visits entries in strictly increasing label order |
| Batch.RegionLevelOrdered | main.py:167-168 | the regions of one slide are visited in order, each under `[col, slide]` |
| Batch.SlideLevelOrdered | main.py:165-166 | the slides of one collection are visited in order, each under `[col]` |
| Batch.RegionWalkOrdered | main.py:163-168 | the three-level walk visits `(col, slide, region)` in strictly increasing lexicographic order |
| Batch.SlideWalkOrdered | main.py:142-143 | the one-level walk visits slides in strictly increasing order |
| Batch.EmissionsOrdered | main.py:176-177 | rows written along an ordered walk are in strictly increasing label order |
| Batch.ConcatMapShaped | main.py:164-170 | blocks that each have the row shape give a walk with the row shape |
| Batch.LeavesShaped | main.py:169-170 | a visit's path has the suffix exactly when its last label does |
| Batch.RegionWalkShaped | main.py:169-177 | every three-level visit has labels `[col, slide, region]`, and its path has the suffix exactly when `region` does |
| Batch.SlideWalkShaped | main.py:144-152 | every one-level visit has labels `[slide]`, and its path has the suffix exactly when `slide` does |
| Batch.ReportShape | main.py:170-177 | every written row has the walk's number of labels with the last ending in the suffix, and rows are ordered when the walk is |
| MainScript.ProcessBulkSlides | main.py:133-153 | rows `[slide, count]` only for `m.vsi` names, in sorted order, each with valid <= total; missing images never stop the run; the run exits 0 exactly when every listed, existing `m.vsi` image loads |
| MainScript.ProcessBulkSlidesRegions | main.py:156-178 | rows `[col, slide, region, count]` only for `m.vsi` names, in lexicographic order, each with valid <= total; missing images never stop the run; the run exits 0 exactly when every listed, existing `m.vsi` image loads |
| TaggedScript.TaggedBatch | tagged.py:117-133 | rows `[col, slide, region, count]` under `./data` only for `m.vsi` names, in lexicographic order; the run exits 0 exactly when every directory lists and every suffixed path exists and loads, otherwise it stops with status 1 keeping the earlier rows |
| DapiScript.DapiBatch | DAPI_count.py:117-133 | rows `[col, slide, region, count]` under `./data` only for `d.vsi` names, in lexicographic order; the run exits 0 exactly when every directory lists and every suffixed path exists and loads, otherwise it stops with status 1 keeping the earlier rows |

## Left out

- Image loading: Bio-Formats and the `javabridge` JVM start and stop are foreign calls. The loader is the oracle `FileSystem.load`. A loader that raises and one that returns `None` both end the process with status 1, so both are `None`.
- OpenCV: channel split, blur, Canny, `findContours`, `contourArea`, `moments` and `pointPolygonTest` are library internals. Contours arrive as data, and the polygon test is the parameter `test`. No point-in-polygon algorithm is written, because the scripts contain none.
- Floating point: areas and moments are exact reals. Rounding in `m10 / m00` before `int()` is not modelled.
- The min-max rescale to `uint8` feeds only library calls.
- Drawing, `imshow`, the `waitKey` loop and `destroyAllWindows` only present results.
- The menus and `input().strip()` (main.py:110-121, main.py:181-195): paths are parameters, and the menu dispatch is not modelled.
- This affects `MainScript.ProcessSingleImage`: its path is taken as already stripped.
- CSV output is an abstract sequence of rows. Not modelled:
  - opening the output file;
  - CSV quoting and the text form of the count list;
  - the progress and "Done" messages.
- `tagged.py` and `DAPI_count.py` build a new `csv.writer` for every row. Every writer writes to the same file, so the rows are the same as with one writer.
- test.py is a script of library calls. Its own logic is only the area > 50 tally, which is `AboveCount` with threshold 50.
- Batch.RegionWalkOrdered: this ordering, and the ordering claims of the script-level batch methods, assume that `os.listdir` never returns a name twice (`DistinctListings`). That is a property of file systems that the code does not check.
- Batch.LeafLoop: the loops return a `State` value, and the CSV file is not an object shared with other code. Aliasing of the output file handle is not modelled.
- Exit codes: a listing that raises is an uncaught exception, which Python turns into status 1, like `sys.exit(1)`. `ExitCode` only distinguishes 0 from 1, and `javabridge.kill_vm` after an early exit is not modelled.
