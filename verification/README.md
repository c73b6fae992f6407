# ROI export and metadata import, modelled in Dafny

ROI_export is a Flywheel gear that walks a project and exports the regions
of interest (ROIs) drawn in the OHIF viewer into one CSV table, one row per
ROI. The same repository also holds a helper that imports a spreadsheet back
into container metadata. This project models the pure logic under the
repository client calls:

- **ROI curation** (`ROICurator`, module `Curator` with `RoiRecord`,
  `Hierarchy`, `FileTypes` and `OutputTable`). ROI records are found in a
  session's or a file's `info`, under the viewer format (`ohifViewer` →
  `measurements` → one bucket per shape) or the simple format (`roi`, a
  list of records with a `toolType`). Each record is normalised into a
  bounding box, a label, a user and seven statistics. The record is then
  placed in the group / project / subject / session / acquisition hierarchy
  and its file is classified by extension. Finally one cell is appended to
  each of the 22 columns of the output template.
- **Walker** (`MyWalker.queue_children`, module `Walker`). This is what a
  container adds to the walk's deque.
- **Aggregation** (`acquire_rois`, module `AcquireRois`). This folds the
  per-container column maps into the project table.
- **Metadata import** (`import_data`, modules `Merge` and `ImportData`).
  This covers:
  - the recursive `update` merge with its overwrite flag;
  - the dotted-path reader `expand_metadata`;
  - the `metadata_destination` nesting loop;
  - the exactly-one-match rule;
  - the success counter and the final report.

Supporting modules:

- `Base`: `Option`, `Result`, and the `Fault` kinds that stand for the
  exceptions Python raises.
- `JsonValue`: the JSON-like value type of `info` dicts and Python's `.get`.
- `Text`: `str.split` and `"".join`.
- `Containers`: container records and the id-to-label tables that replace
  `fw.get_*`.

Modelling choices:

- **Exceptions.** A Python exception is a `Failure`. In curation nothing
  catches it: `acquire_rois` calls `curate_container` without a `try`
  (utils/acquire_ROIs.py:53-54), so one failing container aborts the whole
  export. In the import it is caught per row, so the row stays "Failed".
- **Table contents.** A table is a map from `Column` to a sequence of
  cells. `Tabulate` gives the table that appending the accepted rows one by
  one produces.
- **Numbers.** Coordinates and statistics are `real`.

Behaviour worth noting:

- **`update` on a value that is not a dict.** The loop body formats
  `d.keys()` into a debug message before it tests the key, and a dict value
  calls `d.get`. Either raises, for the first key of `u`. So the merge fails
  whenever it reaches a non-dict with a non-empty `u`, not only when `u`
  holds a dict there (`Merge.Update`).
- **Viewer-format info on a file.** It fails with `UndefinedClient` when
  the file's parent has a session, because `curate_file` calls the
  undefined global `fw` (utils/MyCurator.py:409). It is skipped when the
  parent has no session.
- **Malformed viewer ROI.** It fails even when no file matches it.
  `process_generic_roi` runs before the skip on an unresolved group.

## Model

| member | source | states |
|---|---|---|
| JsonValue.Get | utils/MyCurator.py:316-318 | `d.get(k)`: the stored value when the key is present, null when it is absent |
| JsonValue.GetOr | utils/MyCurator.py:323-325 | `d.get(k, default)`: the stored value when present, the default otherwise |
| JsonValue.AsMapping | utils/MyCurator.py:252 | reading a value as a dict succeeds exactly when it is a dict, and gives back its entries |
| JsonValue.IterateRecords | utils/MyCurator.py:184 | `for roi in x` succeeds on a list (its items, in order), on an empty dict and on an empty string (nothing), and fails on anything else |
| JsonValue.Cell | utils/MyCurator.py:104 | an optional label is written as null exactly when it is absent, else as its string |
| Text.Split | utils/import_data.py:19 | `str.split(sep)` gives at least one piece and no piece contains the separator |
| Text.LemmaJoinSplit | utils/import_data.py:19 | joining the pieces of a split with the separator gives the string back |
| Text.LemmaSplitJoin | utils/import_data.py:134 | splitting a join of separator-free pieces gives the pieces back |
| Text.ReplaceChar | utils/MyCurator.py:141 | `str.replace` of one character: same length, every occurrence replaced, every other character kept |
| Text.LStrip | utils/MyCurator.py:153 | `lstrip(c)` removes exactly the leading run of `c` and leaves a suffix of the string |
| FileTypes.Suffixes | utils/MyCurator.py:153 | every suffix of a name is a dot followed by a dot-free piece |
| FileTypes.LemmaTwoSuffixes | utils/MyCurator.py:152-154 | a name with at least two extensions is typed by its last two: the table's value when they are known, else the pair without its leading dot |
| FileTypes.LemmaOneSuffix | utils/MyCurator.py:15-20 | a name with one extension is typed by that extension: DICOM for `.dcm` and `.dicom`, NIFTI for `.nii`, else the extension itself |
| FileTypes.LemmaNoSuffix | utils/MyCurator.py:152-154 | a name without a dot has an empty type |
| FileTypes.LemmaCompressedNifti | utils/MyCurator.py:18 | every `.nii.gz` name is NIFTI |
| FileTypes.LemmaDottedDicomName | utils/MyCurator.py:153-154 | a `.dcm` name with a dotted stem is not typed DICOM: only the last two suffixes are looked up |
| RoiRecord.Number | utils/MyCurator.py:327-333 | a coordinate can be compared exactly when it is a number |
| RoiRecord.UserOrigin | utils/MyCurator.py:335-337 | the user is `updatedById` when set; otherwise `flywheelOrigin.id`, which is null when `flywheelOrigin` is absent and fails when it is not a dict |
| RoiRecord.ReadCorners | utils/MyCurator.py:323-328 | the corners are read exactly when `handles`, `start` and `end` are dicts (missing ones read as empty) and all four coordinates are numbers |
| RoiRecord.ProcessGenericRoi | utils/MyCurator.py:315-352 | succeeds exactly when the corners are read and the user resolved; Xmin/Ymin are the smaller and Xmax/Ymax the larger coordinate of the two handles, which form the same multiset; a missing coordinate fails; label is `location` else `label`; user as UserOrigin; description and `cachedStats` (default empty) pass through |
| RoiRecord.LemmaCornerOrderIrrelevant | utils/MyCurator.py:327-333 | swapping the two handles of a record leaves the bounding box unchanged |
| Containers.FetchLabel | utils/MyCurator.py:97-98 | a label lookup succeeds exactly when the id is given and known, and returns that container's label |
| Containers.Flatten | utils/MyCurator.py:136-139 | the session's file list holds exactly the files of its acquisitions |
| Containers.LemmaFlattenAppend | utils/MyCurator.py:136-139 | the file list keeps acquisition order: the files of earlier acquisitions come first, in their listing order |
| Hierarchy.OptionalLabel | utils/MyCurator.py:100-110 | an unset id gives no label; a set id gives its label and fails when unknown |
| Hierarchy.FileHierarchy | utils/MyCurator.py:93-127 | succeeds exactly when the project is known and every set subject, session and acquisition id is known; the group passes through; subject and session are absent exactly when their ids are unset; the acquisition label falls back to the parent's label only when the parent is an acquisition |
| Hierarchy.NormalizedSeriesUid | utils/MyCurator.py:141 | a missing UID reads as empty; a present one must be a string; the result has its length, every `_` becomes `.` and every other character is kept |
| Hierarchy.MatchingFiles | utils/MyCurator.py:141 | fails exactly when some file's UID is not a string; otherwise holds exactly the matching files, the earliest match first |
| Hierarchy.FirstSeriesMatch | utils/MyCurator.py:141-150 | nothing exactly when no file matches; otherwise the earliest matching file in listing order, even when several match |
| Hierarchy.SessionHierarchy | utils/MyCurator.py:129-172 | an ROI without a series UID, or whose UID matches no file, is unresolved; otherwise it gets the first match's hierarchy labels, name and file type |
| OutputTable.LemmaColumnsComplete | utils/MyCurator.py:22-45 | the template has 22 columns, every column once, with distinct headers |
| OutputTable.Statistic | utils/MyCurator.py:231-237 | a statistic is the `cachedStats` value when present and 0 otherwise |
| OutputTable.LemmaStatisticsDefault | utils/MyCurator.py:301-307 | each of the seven statistic cells is the stored value or 0 |
| OutputTable.EmptyTable | utils/MyCurator.py:358 | the deep-copied template has every column, all empty |
| OutputTable.AppendRow | utils/MyCurator.py:215-240 | one accepted ROI appends exactly one cell to every column and changes no other cell |
| OutputTable.Tabulate | utils/MyCurator.py:284-311 | after n accepted ROIs every column has n cells and cell i of each column is row i's value |
| OutputTable.LemmaColumnCellsAppend | utils/MyCurator.py:284-311 | the column of two row lists in sequence is the two columns concatenated |
| OutputTable.LemmaReadRowTabulate | utils/MyCurator.py:215-240 | reading row i back from a tabulation gives exactly the cells that row i contributed |
| OutputTable.LemmaGroupColumnEmpty | utils/MyCurator.py:215 | the Group column is empty exactly when no ROI was accepted |
| OutputTable.BuildRow | utils/MyCurator.py:231-237 | a row can be built exactly when `cachedStats` is a dict, and it keeps place, ROI, statistics and type |
| Curator.Kept | utils/MyCurator.py:184-240 | the rows kept from the records' outcomes are exactly the values of the successful non-empty outcomes |
| Curator.LemmaKeptAppend | utils/MyCurator.py:184-240 | records processed one after the other contribute their rows one after the other |
| Curator.LemmaKeptSingle | utils/MyCurator.py:184-240 | one record contributes exactly its row, or nothing when it is skipped |
| Curator.CollectRows | utils/MyCurator.py:184-187 | the loop over records succeeds exactly when every record does, and then gives the kept rows of the records' outcomes, in record order |
| Curator.SimpleRoiRow | utils/MyCurator.py:184-240 | a non-dict record fails; a record whose `toolType` is not rectangleRoi or ellipticalRoi adds nothing; a supported record fails exactly when the file's hierarchy, the normalisation or the statistics fail, and otherwise gives exactly the row with that type, the file's own hierarchy and type, the normalised ROI and its statistics |
| Curator.SimpleOutcomes | utils/MyCurator.py:184-240 | the loop body's outcome for each simple-format record, in order |
| Curator.SimpleRows | utils/MyCurator.py:177-242 | a non-iterable value fails; otherwise the rows exist exactly when every record succeeds, and are the kept rows of the records in order; every row has a supported tool type and the carrying file's hierarchy, name and type |
| Curator.ViewerRoiRow | utils/MyCurator.py:257-311 | a non-dict record fails; a dict record fails exactly when its resolution or normalisation fails, or when it is resolved with a group and its statistics are not a dict; it adds nothing exactly when unresolved or without a group; a row has a group, the bucket's name as ROI type, the record's resolved place and its normalised ROI and statistics |
| Curator.ViewerOutcomes | utils/MyCurator.py:257-311 | the loop body's outcome for each record of a bucket, in order |
| Curator.BucketRows | utils/MyCurator.py:254-257 | an absent bucket adds nothing; a non-iterable bucket fails; otherwise the rows exist exactly when every record succeeds, and are the kept rows of the records in order; every row of a bucket carries the bucket's name |
| Curator.ViewerRows | utils/MyCurator.py:252-254 | succeeds exactly when both supported buckets do, giving the rectangle rows followed by the ellipse rows; only RectangleRoi and EllipticalRoi buckets produce rows; no supported bucket, no rows |
| Curator.LemmaUnsupportedBucketsIgnored | utils/MyCurator.py:254 | dropping every unsupported bucket from `measurements` changes nothing |
| Curator.SessionRows | utils/MyCurator.py:362-370 | no `ohifViewer` key means no rows; a non-dict `ohifViewer` or `measurements` fails; otherwise the rows are the viewer rows of `measurements` (an empty dict when absent); every row has a supported bucket type |
| Curator.CurateSession | utils/MyCurator.py:354-375 | the session's table is rectangular with one cell per accepted ROI per column, in order |
| Curator.LemmaSessionIgnoresSimpleFormat | utils/MyCurator.py:362-370 | a session's `roi` key has no effect on its table |
| Curator.FileRows | utils/MyCurator.py:382-410 | viewer-format info on a file with a session fails on the undefined client; a non-dict `ohifViewer` fails; otherwise the rows are the simple-format rows of `roi`, or none without it; every row has a simple-format type and the file's own place |
| CurationExample.LemmaOneRectangleCurated | utils/MyCurator.py:354-375 | a session with one rectangle whose series UID names its one `<stem>.dcm` file curates to a one-row table: Xmin/Xmax and Ymin/Ymax the ordered handle coordinates, File Type DICOM, the file's name, the project's label, the bucket as ROI type, statistics 0 |
| CurationExample.LemmaScanRectangleCurated | utils/MyCurator.py:354-375 | the rectangle from (10, 20) to (50, 80) on the series of `scan.dcm` gives Xmin 10, Xmax 50, Ymin 20, Ymax 80 and File Type DICOM |
| CurationExample.LemmaOneRowCells | utils/MyCurator.py:284-311 | the cells of a one-row table are the row's box, file, project, type and statistics |
| FileTypes.LemmaDicomName | utils/MyCurator.py:15-16 | a dot-free stem with the `.dcm` extension is DICOM |
| Curator.CurateFile | utils/MyCurator.py:377-418 | the file's table is rectangular with one cell per accepted ROI per column, in order |
| Walker.QueueChildren | utils/MyWalker.py:10-40 | files and analyses leave the deque unchanged; otherwise the old deque is a prefix and the element's files, then analyses (None as empty), then subjects / sessions / acquisitions by kind are appended |
| Walker.LemmaChildrenSmaller | utils/MyWalker.py:31-40 | everything a container enqueues is smaller than the container itself |
| Walker.LemmaQueueOnto | utils/MyWalker.py:31-40 | what a container enqueues does not depend on the deque it is appended to |
| Walker.LemmaWalkCoversExactlyOnce | utils/MyWalker.py:10-40 | the walk driven by these children visits every node below the starting deque exactly as often as it occurs there, for both pop orders |
| Walker.LemmaLeafWalk | utils/MyWalker.py:19-24 | walking from a file or an analysis yields just that node |
| AcquireRois.Merge | utils/acquire_ROIs.py:64-68 | an existing column becomes old followed by new, a new key is inserted, untouched keys keep their values |
| AcquireRois.LemmaFolded | utils/acquire_ROIs.py:51-68 | the accumulator holds exactly the columns some contributing container has, each the concatenation in walk order |
| AcquireRois.Aggregate | utils/acquire_ROIs.py:51-70 | the output holds exactly the contributed columns, each the walk-order concatenation of the contributing containers' columns |
| AcquireRois.LemmaNothingContributes | utils/acquire_ROIs.py:51 | when nothing contributes, the output is the empty starting map |
| AcquireRois.LemmaSkipped | utils/acquire_ROIs.py:60-62 | a missing or empty result, or one with an empty Group, changes nothing |
| AcquireRois.LemmaColumnsStayAligned | utils/acquire_ROIs.py:60-68 | when each container's table has equal-length columns, each output column's length is the total number of contributed rows |
| AcquireRois.LemmaAggregateTabulated | utils/acquire_ROIs.py:53-68 | when each container's table tabulates its accepted ROIs, each output column is the tabulation of all ROIs in walk order |
| AcquireRois.LemmaContributesTabulated | utils/acquire_ROIs.py:60-62 | a curated container contributes exactly when it accepted an ROI |
| Merge.Update | utils/import_data.py:192-213 | on a dict: the result's keys are the old and new keys; unmentioned keys keep their values; an absent plain key is added; a present plain key is replaced exactly when overwriting; a dict value merges into the existing value or `{}`; on a dict the merge succeeds exactly when every nested merge does. A non-dict survives only an empty update, unchanged |
| Merge.LemmaUpdateNothing | utils/import_data.py:194 | an empty update returns `d` unchanged |
| Merge.LemmaUpdateIdempotent | utils/import_data.py:192-213 | applying the same update twice equals applying it once |
| Merge.LemmaAllKeysSettled | utils/import_data.py:194-211 | a dict on which every key of the update merges to what it already holds is returned unchanged |
| Merge.LemmaUpdateIntoEmpty | utils/import_data.py:195-196 | merging into an empty dict copies the update at every depth |
| Merge.LemmaOverwriteSubsumes | utils/import_data.py:203-206 | after a successful overwriting merge every value of the update is in place |
| Merge.LemmaKeepPreserves | utils/import_data.py:207-208 | after a successful non-overwriting merge every old value is still in place |
| ImportData.ExpandPath | utils/import_data.py:26-33 | an empty path gives the attribute itself; a read through a non-dict fails; a missing or falsy first key gives null; a non-empty path yields a truthy value or null |
| ImportData.LemmaExpandOutcome | utils/import_data.py:26-33 | the reader fails exactly when the walk along the path meets a non-dict, and gives null exactly when some key on the path is missing or falsy (or the path is empty and the value is null) |
| ImportData.ExpandMetadata | utils/import_data.py:18-33 | fails with a missing attribute exactly when the first segment is not an attribute; otherwise fails exactly when the walk meets a non-dict, and gives null exactly when a key on the path is missing or falsy |
| ImportData.LemmaExpandAttributeOnly | utils/import_data.py:23-25 | a dot-free name reads the attribute, even when it is falsy |
| ImportData.LemmaExpandFinds | utils/import_data.py:26-33 | a truthy value at the end of a path of truthy dicts is what the reader returns |
| ImportData.LemmaExpandSound | utils/import_data.py:26-33 | whatever the reader returns other than null is what lies at the end of the path |
| ImportData.Destination | utils/import_data.py:134-138 | the levels are the dotted pieces of the destination, without a leading `info` |
| ImportData.LemmaDestinationLevels | utils/import_data.py:134-138 | `info.l1.….ln` gives exactly the levels l1…ln, and `info` gives none |
| ImportData.Nest | utils/import_data.py:139-142 | the nested data has the first level as its only key; no levels leave the data as it is |
| ImportData.LemmaNestSnoc | utils/import_data.py:139-142 | wrapping from the innermost level outwards is nesting under the levels in order |
| ImportData.NestLoop | utils/import_data.py:139-142 | the `while levels` loop gives data that holds the row's data at the end of the level path |
| ImportData.LemmaNestPath | utils/import_data.py:139-142 | reading the nested data along its levels gives back the row's data |
| ImportData.LemmaImportThenExpand | utils/import_data.py:18-33 | for an attribute `info` holding the nested data, reading the destination back with the dotted-path reader gives the row's data |
| ImportData.UploadObject | utils/import_data.py:94-96 | the row without the two status columns, other cells unchanged |
| ImportData.Matches | utils/import_data.py:106 | the candidates whose name or label equals the object name, each exactly once, in order |
| ImportData.LemmaMatchesByAttributes | utils/import_data.py:106 | matching reads only the candidates' attributes, never their info |
| ImportData.RowData | utils/import_data.py:129-131 | the row data without the mapping column, failing when the column is missing |
| ImportData.ImportRow | utils/import_data.py:91-172 | a row is applied (or dry-run applied) exactly when it has one match, has the mapping column, and, outside a dry run, its nested data merges into the match's info; a row is applied only with exactly one match; zero or several, or a missing mapping column, leave it Failed and the targets unchanged; a dry run changes nothing and reports a dry-run success; otherwise exactly the matched target's info becomes the merge of its info with the nested data |
| ImportData.CountApplied | utils/import_data.py:89-91 | the success counter never exceeds the number of rows |
| ImportData.LemmaCountSnoc | utils/import_data.py:150-163 | the counter grows by one exactly for a row that was applied or dry-run |
| ImportData.FinalReportAsWritten | utils/import_data.py:176-181 | the report's percentage is successes over rows times 100, and fails with a division by zero on an empty sheet |
| ImportData.LemmaEmptySheetRaises | utils/import_data.py:179 | an empty sheet reaches the division with zero rows and raises |
| ImportData.FinalReport | utils/import_data.py:176-181 | the percentage is absent exactly for an empty sheet; otherwise successes over rows times 100, between 0 and 100 |
| ImportData.LemmaFinalReportAgrees | utils/import_data.py:176-181 | on a non-empty sheet the corrected report gives the percentage the code prints |
| ImportData.LemmaSingleMatchByAttributes | utils/import_data.py:106-123 | whether a row has exactly one match depends only on the candidates' attributes |
| ImportData.ImportRows | utils/import_data.py:89-172 | the rows applied in order, each on the containers the rows before it left, giving one status per row |
| ImportData.LemmaFoldStatus | utils/import_data.py:89-172 | in a loop that threads the containers through the rows, row i's status is what the body gives it on the containers the first i rows left |
| ImportData.LemmaImportRowsStatus | utils/import_data.py:89-172 | row i is applied exactly when the loop body gets through it on the containers the earlier rows left |
| ImportData.LemmaImportRowsKeep | utils/import_data.py:89-172 | the rows never change a container's attributes, and a dry run changes no container and reports no update success |
| ImportData.LemmaImportRowsApplied | utils/import_data.py:89-172 | every applied row is one the body gets through on the containers the earlier rows left, and has exactly one match among the original candidates |
| ImportData.ApplyRow | utils/import_data.py:93-172 | one row: applied exactly when it has one match, the mapping column and (outside a dry run) a successful merge; attributes are kept; a dry run changes nothing |
| ImportData.ImportAll | utils/import_data.py:67-183 | the statuses and final containers are those of the rows applied in order; row i is applied exactly when the body gets through it on the containers the earlier rows left; the counter equals the applied rows and never exceeds the row count; the report is the corrected one (none on an empty sheet, where the code raises), in 0..100; every applied row has exactly one match among the candidates; a dry run changes nothing and records no update success |

## Left out

- `run.py`: API-key handling, client construction, logging set-up and exit codes.
- CSV and DataFrame output: `save_csv` (utils/acquire_ROIs.py:73-84), `save_df_to_csv` (utils/import_data.py:187-189) and the DataFrame writes. Tables are maps of sequences. Statuses are a sequence.
- Repository access: `fw.get_*`, `reload()`, `acquisitions()`, `subjects()`, `sessions()` and `update_info`. They are replaced by id-to-label maps, refreshed listings and a sequence of candidate targets. A lookup of an unknown id is a failure.
- `get_objects_for_processing` (utils/import_data.py:38-62): it is built on helper functions that are not part of this model. Candidates are passed in.
- `curate_container` (utils/MyCurator.py:60-91): it relies on inherited `validate_*` and `curate_project`/`curate_subject`/… methods that are not part of this model.
- The walk loop: it lives in the walker base class, which is not part of this model. `Walker.Walk` states the assumed driver (pop from the back when depth-first, from the front otherwise).
- numpy scalar conversion (utils/import_data.py:199-200), logging, `print`/`pprint`, and the ROI `timestamp`, which is read but never written out (utils/MyCurator.py:318).
- `generate_path_to_container` and the `Gear_FW_Location` cell (utils/import_data.py:126-127): the helper is not part of this model, so its possible failure is not modelled.
- AcquireRois.Aggregate: each container's curation is given as an optional table. A failing curation, which aborts the whole export in the code (utils/acquire_ROIs.py:53-54), cannot be represented in its input, so the abort is not modelled.
- ImportData.ImportAll: its report is the corrected `FinalReport` (no percentage on an empty sheet), not the code's division, which raises there (see Findings and `FinalReportAsWritten`).
- Curator.ViewerRows: buckets are read in `SUPPORTED_ROIS` order (rectangles, then ellipses), whereas the code follows the key order of the `measurements` dict. Maps carry no insertion order.
- RoiRecord.ProcessGenericRoi: only numbers are compared. Python's `min`/`max` would also order two strings, and would treat booleans as integers; such coordinates are failures here.
- FileTypes.Suffixes: file names are bare names without a directory part.
- Merge.Update: when a nested merge raises part-way, Python has already written the earlier keys into `info` in place. The model treats the failed row as leaving every target unchanged.
- Merge.Update: every exception it raises is one fault, `MergeIntoNonMapping`.
- ImportData.Matches: equality is structural equality of values. Python quirks such as `True == 1` or `NaN != NaN` are not modelled.

## Findings

| source | as written | input that shows it | evidently intended | confidence | as-written member | corrected member |
|---|---|---|---|---|---|---|
| utils/import_data.py:176-181 | the final report prints `success_counter/nrows*100` | a sheet with zero rows: after the (empty) loop the division raises `ZeroDivisionError`, so `import_data` returns no status report | report 0 of 0 rows without a percentage | not executed | ImportData.FinalReportAsWritten | ImportData.FinalReport |
