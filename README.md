# Ichnaea datamap pipeline and wifi clustering, modelled in Dafny

This project models two parts of Ichnaea, Mozilla's location service.

- **The datamap script** (`ichnaea/scripts/datamap.py`). It exports observed grid cells to CSV files, turns the CSVs into quadtrees and merges them, enumerates tiles and lays out tile folders, and syncs the rendered tiles to an S3 bucket.
  - The sync compares the local tiles with the bucket inventory.
  - It uploads new tiles, updates changed ones and deletes orphaned objects in batches.
  - A job watcher awaits the asynchronous jobs and fires success, error and progress callbacks.
- **The wifi position source** (`ichnaea/api/locate/wifi.py`).
  - Nearby networks are clustered by single linkage until no two clusters are within the cluster distance.
  - Clusters that are too small are dropped.
  - The largest cluster is picked, and its position is averaged with the accuracy capped.

Every external effect becomes an input:

- the S3 listing becomes a sequence of pages, and a transfer becomes a function from job to a raised error or a list of response errors;
- a keyboard interrupt during the sync becomes the index of the job being awaited when it arrives;
- a job becomes a sequence of outcomes, each returned, raised or interrupted;
- the database export becomes a sequence of page line counts;
- the clock's progress trigger becomes a function from step to boolean;
- the geometric distance and the position averaging become function parameters.

Modules, one per file:

- `Wrappers`: Option and Result.
- `Text`: the Python string operations the script relies on: strip, lstrip, split, whitespace split, splitlines, replace, zero-padded decimals, `os.path.join`, string ordering and `_s`.
- `JobWatch`: `watch_jobs`.
- `SyncPlan`: `get_current_objects`, `get_sync_actions`.
- `SyncRun`: `sync_tiles`, `delete_files`.
- `CsvExport`: the rotation loop of `export_to_csv`.
- `Quadtrees`: `csv_to_quadtrees`, `merge_quadtrees`.
- `Tiles`: `enumerate_tiles`, `create_tile_subfolders`, the output path of `generate_tile`.
- `Cli`: the validation in `main`.
- `WifiCluster`: `cluster_wifis`.
- `WifiSearch`: `get_clusters`, `pick_best_cluster`, `aggregate_cluster_position`, `search_wifi`.

Where the code loops and updates variables, the model is a `method` with loop invariants, proved equal to a specification function. Examples are `WatchJobs`, `GetSyncActions`, `GetCurrentObjects`, `ExportToCsv`, `SyncTiles`, `ListCsvs`, `CreateTileSubfolders`, `ClusterWifis` and `FillSignals`. The properties are lemmas about those functions.

## Model

| member | source | states |
|---|---|---|
| Text.Plural | ichnaea/scripts/datamap.py:201-206 | the suffix is empty exactly for a count of one, and "s" otherwise |
| Text.Strip | ichnaea/scripts/datamap.py:1004 | the result is the input with the leading and trailing runs of the character cut away: it neither starts nor ends with it, and everything removed is that character |
| Text.ReplaceAll | ichnaea/scripts/datamap.py:568-569 | a string without the pattern is left unchanged |
| Text.ReplaceAllFirst | ichnaea/scripts/datamap.py:568-569 | the first occurrence of the pattern is replaced and replacement goes on after it: with no occurrence starting before it, `a + pat + b` becomes `a + rep` followed by the replacement of `b` |
| Text.PathJoinParts | ichnaea/scripts/datamap.py:705 | `os.path.join` ends with its second part; an absolute second part replaces the first; otherwise the first part is kept in front, with one `/` inserted exactly when it does not already end with one |
| Text.TrimLeft | ichnaea/scripts/datamap.py:779 | the result is a suffix of the input; everything removed is the stripped character, and the result does not start with it |
| Text.TrimRight | ichnaea/scripts/datamap.py:1004 | the result is a prefix of the input; everything removed is the stripped character, and the result does not end with it |
| Text.StripSurrounded | ichnaea/scripts/datamap.py:755 | stripping a character from a string wrapped in runs of it gives back the string, so a quoted ETag yields its digest |
| Text.Split | ichnaea/scripts/datamap.py:321-322 | split yields at least one part, no part holds the separator, and joining the parts rebuilds the input |
| Text.SplitJoin | ichnaea/scripts/datamap.py:321-322 | splitting a join of separator-free parts gives the parts back |
| Text.Words | ichnaea/scripts/datamap.py:657 | whitespace split yields only non-empty words without whitespace |
| Text.WordsJoinWords | ichnaea/scripts/datamap.py:657 | whitespace-splitting space-joined words gives the words back |
| Text.WordsOfGapped | ichnaea/scripts/datamap.py:657 | words separated by any non-empty runs of whitespace, with any whitespace before and after, split back into exactly those words |
| Text.GapsRebuild | ichnaea/scripts/datamap.py:657 | every text is its split words separated by whitespace runs, non-empty between words, so the words are exactly its maximal non-whitespace runs |
| Text.Lines | ichnaea/scripts/datamap.py:656 | splitlines yields one line more than there are breaks, no line holds a break, and interleaving the lines with the breaks rebuilds the input |
| Text.LinesAtBreak | ichnaea/scripts/datamap.py:656 | a line followed by a newline is split off as the first line |
| Text.ReplaceSuffix | ichnaea/scripts/datamap.py:568-569 | replacing ".csv" where it occurs only as the suffix replaces just the suffix |
| Text.Decimal | ichnaea/scripts/datamap.py:649 | a number prints as digits without a leading zero |
| Text.ParseDecimalOfDecimal | ichnaea/scripts/datamap.py:649 | reading back a printed number gives the number |
| Text.Pad4 | ichnaea/scripts/datamap.py:569 | the `{:04}` field is exactly four characters for numbers below 10000 and the plain decimal otherwise; it is all digits and reads back as the number |
| Text.InsertSorted | ichnaea/scripts/datamap.py:802 | inserting into a strictly sorted list keeps it sorted and adds exactly the new element |
| Text.StrictlySortedUnique | ichnaea/scripts/datamap.py:802 | two strictly sorted lists with the same elements are equal, so the sorted delete list is determined by its set |
| Text.LexLessTotal | ichnaea/scripts/datamap.py:802 | Python string order is total |
| Text.LexLessTransitive | ichnaea/scripts/datamap.py:802 | Python string order is transitive |
| JobWatch.WatchJobs | ichnaea/scripts/datamap.py:254-295 | the watcher loop's final status, callback state, progress reports and error reports are those of the step-by-step specification `Watch` |
| JobWatch.FirstFailureAborts | ichnaea/scripts/datamap.py:275-295 | without an error handler the first failing job re-raises its error, after success callbacks for exactly the earlier jobs |
| JobWatch.ErrorsAreIsolated | ichnaea/scripts/datamap.py:275-295 | with an error handler and no interrupt, every job is awaited in order and the run completes with each job's callback applied |
| JobWatch.CompletesIffAllPass | ichnaea/scripts/datamap.py:275-295 | the run completes exactly when every job either returns or raises into an installed error handler |
| JobWatch.InterruptPropagates | ichnaea/scripts/datamap.py:285-287 | an interrupt propagates at its index, and the error handler is never called for it |
| JobWatch.ProgressIsMonotone | ichnaea/scripts/datamap.py:276-279 | the reported job counts strictly increase and stay within the number of jobs |
| JobWatch.OnlyFailuresReported | ichnaea/scripts/datamap.py:289-290 | every job index reported to the error client is that of a job that raised |
| JobWatch.OneCallbackPerJob | ichnaea/scripts/datamap.py:280-290 | with no interrupt, the callback log gets exactly one entry per job, in job order: success with the value or error with the exception |
| JobWatch.ReplayCounts | ichnaea/scripts/datamap.py:280-290 | success callbacks count the returning jobs; error callbacks count the raising jobs when a handler is installed |
| JobWatch.FourthOfTenAborts | ichnaea/scripts/datamap.py:275-295 | of ten jobs whose fourth raises, without a handler, three successes fire and the fourth job's error is raised |
| JobWatch.FourthOfTenIsolated | ichnaea/scripts/datamap.py:275-295 | the same ten jobs with a handler complete with nine successes and one error |
| JobWatch.ReplayAppend | ichnaea/scripts/datamap.py:280-290 | applying callbacks to two runs of jobs in turn equals applying them to the joined runs |
| JobWatch.WatchPastPrefix | ichnaea/scripts/datamap.py:275-295 | jobs that pass through only advance the callback state, so watching resumes after them unchanged |
| SyncPlan.GetCurrentObjects | ichnaea/scripts/datamap.py:740-765 | fetching pages until one is not truncated, each with the previous page's token, records exactly the fold of `Record` over all listed objects; a page without `Contents` raises KeyError at that page, after every earlier page listed |
| SyncPlan.RecordPage | ichnaea/scripts/datamap.py:751-757 | recording one page's contents extends the fold over everything listed so far |
| SyncPlan.RecordNames | ichnaea/scripts/datamap.py:751-757 | a name is in the inventory exactly when some listed `.png` key yields it |
| SyncPlan.RecordLastWins | ichnaea/scripts/datamap.py:757 | a name's entry holds the metadata of the last listed object with that name |
| SyncPlan.TileNameAfterPrefix | ichnaea/scripts/datamap.py:754 | the inventory name of a key is the key with the bucket prefix removed |
| SyncPlan.TileMetaUnquotes | ichnaea/scripts/datamap.py:755 | the recorded digest is the ETag without its quotes, and the recorded size is the object's size |
| SyncPlan.ObjectNameOfJoin | ichnaea/scripts/datamap.py:779 | the object name of a file joined under the tiles directory is the relative name |
| SyncPlan.SortedNames | ichnaea/scripts/datamap.py:802 | the names come back strictly sorted and are exactly the given set |
| SyncPlan.GetSyncActions | ichnaea/scripts/datamap.py:768-803 | the walk loop produces the upload list, update list, unchanged count and digest log of `Walk`; delete is strictly sorted and holds exactly the unmatched objects |
| SyncPlan.WalkClassifies | ichnaea/scripts/datamap.py:776-799 | with distinct names, upload holds the New tiles, update the Modified ones, and the unchanged count the Same ones, all in walk order; digests are taken for the equal-size tiles; what remains is the objects no tile names |
| SyncPlan.WalkRemaining | ichnaea/scripts/datamap.py:776-799 | the unmatched objects are the inventory minus the local names |
| SyncPlan.VerdictsPartition | ichnaea/scripts/datamap.py:776-799 | every tile gets exactly one verdict, so the three verdict lists add up to the tile count |
| SyncPlan.WithVerdictMembers | ichnaea/scripts/datamap.py:783-796 | a name has a verdict exactly when a tile with that name gets it |
| SyncPlan.UploadAndUpdateMembers | ichnaea/scripts/datamap.py:783-796 | upload holds exactly the local names missing from the inventory; update holds exactly the stored names whose size differs, or whose size matches and digest differs |
| SyncPlan.WalkAccountsForEveryTile | ichnaea/scripts/datamap.py:776-799 | uploads plus updates plus unchanged tiles equal the number of local tiles |
| SyncPlan.DeleteIsDisjoint | ichnaea/scripts/datamap.py:801-802 | delete holds exactly the stored names no local tile has, and shares no name with upload or update |
| SyncPlan.HashedOnlyOnEqualSize | ichnaea/scripts/datamap.py:787-791 | a tile's digest is computed exactly when a stored object of the same name has the same size |
| SyncPlan.SameSizeMembers | ichnaea/scripts/datamap.py:787-791 | the equal-size list holds exactly the names stored with an equal size |
| SyncPlan.MirroredWalkIsIdle | ichnaea/scripts/datamap.py:776-802 | against an inventory that mirrors the tiles, nothing is uploaded, updated or deleted, and every tile counts as unchanged |
| SyncPlan.OneNewOneOrphan | ichnaea/scripts/datamap.py:776-802 | one equal tile, one new tile and one orphan give one upload, one unchanged tile, one digest and one delete |
| SyncRun.ChunkedBatches | ichnaea/scripts/datamap.py:456 | the delete batches concatenate back to the list; each is non-empty with at most the batch size, and all but the last are full |
| SyncRun.Chunked | ichnaea/scripts/datamap.py:456 | the batches concatenate back to the list; each is non-empty with at most the batch size, and all but the last are full |
| SyncRun.Perform | ichnaea/scripts/datamap.py:806-838 | a job returns exactly when its transfer raised nothing and, for a delete, the response had no errors; a returned job reports its tile count under the key of its kind; a raised error is passed on |
| SyncRun.QueueJobs | ichnaea/scripts/datamap.py:443-457 | jobs are the uploads, then the updates, then one delete per batch; the total is the sum of the three list lengths |
| SyncRun.DeleteKeys | ichnaea/scripts/datamap.py:832 | one key per path, in order; each key is the bucket prefix followed by its path |
| SyncRun.DeleteKeysNameTiles | ichnaea/scripts/datamap.py:832 | each delete key is the one the inventory lists under that path |
| SyncRun.DeleteFiles | ichnaea/scripts/datamap.py:829-838 | a delete fails, with a message that lists the errors, exactly when the response has errors; otherwise it reports every path deleted |
| SyncRun.StepAddsShare | ichnaea/scripts/datamap.py:461-469 | one callback adds that job's share to the counters: its count under its key on success, one failure otherwise |
| SyncRun.ReplayTallies | ichnaea/scripts/datamap.py:461-469 | applying the callbacks over all jobs adds the jobs' summed shares to the counters |
| SyncRun.SyncTiles | ichnaea/scripts/datamap.py:424-478 | without a keyboard interrupt, every job is awaited and the counters returned are the summed shares of the laid-out jobs; an interrupt while awaiting a job halts the sync at that job with no counters; the total is the number of planned tiles |
| SyncRun.TallyUploads | ichnaea/scripts/datamap.py:461-464 | successful uploads count one `tile_new` each |
| SyncRun.TallyUpdates | ichnaea/scripts/datamap.py:461-464 | successful updates count one `tile_changed` each |
| SyncRun.TallyDeletes | ichnaea/scripts/datamap.py:461-464 | successful delete batches count every deleted path under `tile_deleted` |
| SyncRun.AllSucceed | ichnaea/scripts/datamap.py:444-469 | when every transfer succeeds, the counters equal the three list lengths with no failure |
| SyncRun.CountsWithinWork | ichnaea/scripts/datamap.py:466-469 | the counters never exceed the tiles covered, and reach it exactly when no failed job covered more than one tile |
| SyncRun.LayoutJobsCover | ichnaea/scripts/datamap.py:443-457 | every queued job covers at least one tile |
| SyncRun.UploadJobsKind | ichnaea/scripts/datamap.py:445-448 | upload paths become upload jobs |
| SyncRun.UpdateJobsKind | ichnaea/scripts/datamap.py:449-452 | update paths become update jobs |
| SyncRun.DeleteJobsCover | ichnaea/scripts/datamap.py:455-457 | a job made from a non-empty batch covers at least one tile |
| SyncRun.FailedDeleteBatchCountsOnce | ichnaea/scripts/datamap.py:469 | a failed batch of three deletes adds one `tile_failed` and nothing else |
| CsvExport.OrDefault | ichnaea/scripts/datamap.py:531-532 | an unset or zero limit falls back to the default; any other value is kept |
| CsvExport.Run | ichnaea/scripts/datamap.py:544-574 | the rotation state stays consistent: the file count is the number of files opened, and the per-file row count is the open file's lines |
| CsvExport.WritePage | ichnaea/scripts/datamap.py:559-573 | one page adds its lines, and rotates to the next segment when the cumulative row count reached the limit |
| CsvExport.WritePages | ichnaea/scripts/datamap.py:544-574 | the loop asks for pages with the row limit and the previous page's last grid as cursor, ends at the first empty page, and leaves the state of `Run` |
| CsvExport.ExportToCsv | ichnaea/scripts/datamap.py:495-589 | the returned rows, file count and files are those of `Export` under the code's cumulative rotation rule, with the same keyset cursors |
| CsvExport.RunAccountsForLines | ichnaea/scripts/datamap.py:560 | the rows counted equal the lines of all pages and the lines in the files |
| CsvExport.FinishAccountsForLines | ichnaea/scripts/datamap.py:578-589 | dropping an empty last segment and renaming the first keeps the line total |
| CsvExport.ExportAccountsForLines | ichnaea/scripts/datamap.py:560-589 | the returned rows equal the sum of emitted lines, and the files hold them all |
| CsvExport.RunWithinLimit | ichnaea/scripts/datamap.py:564 | below the limit no rotation happens and one file holds everything |
| CsvExport.NothingExportedLeavesNothing | ichnaea/scripts/datamap.py:578-580 | zero rows give zero rows and zero files |
| CsvExport.SmallExportKeepsName | ichnaea/scripts/datamap.py:578-586 | a non-empty export below the limit keeps the original file name as its only file |
| CsvExport.RunNames | ichnaea/scripts/datamap.py:568-571 | the first file is the original path, and the k-th opened segment is path k |
| CsvExport.FinishNames | ichnaea/scripts/datamap.py:582-586 | with more than one file, the first is renamed to segment 1 and the rest keep their serial names |
| CsvExport.ExportNames | ichnaea/scripts/datamap.py:568-586 | the exported files are named in order: the original alone, or segments 1, 2, … in the CSV directory |
| CsvExport.FirstSegmentIsSerial | ichnaea/scripts/datamap.py:584 | the renamed first file carries the serial name `_0001` |
| CsvExport.SegmentNameShape | ichnaea/scripts/datamap.py:568-569 | segment k is "sub" + the base name + "_" + k zero-padded to four digits + ".csv", and the digits read back as k |
| CsvExport.PerFileRunFills | ichnaea/scripts/datamap.py:563-564 | under per-file rotation every closed file holds at least the limit |
| CsvExport.PerFileRotationFillsFiles | ichnaea/scripts/datamap.py:563-564 | under per-file rotation every exported file but the last holds at least the limit |
| CsvExport.PerFileRotationOnFourPages | ichnaea/scripts/datamap.py:563-564 | four one-line pages with limit 2 give two files of 2 lines under per-file rotation |
| CsvExport.CumulativeRotationSplitsEarly | ichnaea/scripts/datamap.py:564 | as written, four one-line pages with limit 2 give files of 2, 1 and 1 lines |
| CsvExport.CumulativeRotationKeepsEmptyFile | ichnaea/scripts/datamap.py:564 | as written, pages of 2, 0 and 1 lines with limit 2 leave an empty middle file |
| Quadtrees.ListCsvs | ichnaea/scripts/datamap.py:315-327 | the listing loop leaves the scan of `ScanNames`: jobs, shards, grouped basenames, created directories and the first unpack error |
| Quadtrees.AddSegment | ichnaea/scripts/datamap.py:319-326 | a segment adds its shard once, appends its basename to that shard's group and creates the shard's submap directory |
| Quadtrees.QueueMerges | ichnaea/scripts/datamap.py:340-351 | one merge per shard, in first-seen order, and the final count grows by the number of shards |
| Quadtrees.MergeJobs | ichnaea/scripts/datamap.py:340-351 | one merge per shard, in order; each keeps duplicates, globs `submap*`, reads `quadtree_dir/submap_<shard>` and writes `quadtree_dir/map_<shard>` |
| Quadtrees.CsvToQuadtrees | ichnaea/scripts/datamap.py:298-360 | the stage's result and the directories it created are those of `Stage` with the script's file-name classifier |
| Quadtrees.AwaitJobs | ichnaea/scripts/datamap.py:336-359 | waiting on conversions and merges yields the counts, or the first raised error, of `AwaitAll` |
| Quadtrees.ClassifyAgrees | ichnaea/scripts/datamap.py:316-319 | the classifier treats `map*` names as full maps and `submap*` names as segments split on `_` and `.` |
| Quadtrees.Classify | ichnaea/scripts/datamap.py:316-322 | a name is a full map exactly when it is `map_*.csv`, ignored exactly when it is neither that nor `submap_*.csv`, and otherwise a segment or an unpack error |
| Quadtrees.ScanSkipsAfterError | ichnaea/scripts/datamap.py:321-322 | once an unpack error is raised, later names change nothing |
| Quadtrees.ScanSummary | ichnaea/scripts/datamap.py:311-327 | when every name unpacks, jobs are one per name, shards are the distinct segment shards in first-seen order, each group holds its shard's basenames in order, and one directory is created per shard |
| Quadtrees.ScanFirstError | ichnaea/scripts/datamap.py:321-322 | the error raised is the first name's that fails to unpack |
| Quadtrees.ScanRaisesIffUnpackFails | ichnaea/scripts/datamap.py:321-322 | the scan raises exactly when some name fails to unpack |
| Quadtrees.FirstFailure | ichnaea/scripts/datamap.py:321-322 | when some name fails to unpack, there is a first one, and every name before it unpacks |
| Quadtrees.StageSucceeds | ichnaea/scripts/datamap.py:337-360 | the stage succeeds exactly when every name unpacks and every conversion and merge returns |
| Quadtrees.StageCounts | ichnaea/scripts/datamap.py:337-360 | on success the CSV count is the number of map plus submap files, the intermediate count the number of submap files, and the final count the map files plus the distinct shards |
| Quadtrees.SegmentNameClassifies | ichnaea/scripts/datamap.py:321-322 | a `submap_<shard>_<digits>.csv` name unpacks to its shard and its basename |
| Quadtrees.ExportedNamesClassify | ichnaea/scripts/datamap.py:321-322 | the names the CSV export writes, `map_<shard>.csv` and its segments, classify as a full map and as segments of that shard |
| Quadtrees.Glob | ichnaea/scripts/datamap.py:365 | the glob yields exactly the joined paths of the listed names that match the prefix pattern |
| Quadtrees.MergeCommandBuilt | ichnaea/scripts/datamap.py:365-371 | the command is built exactly when the glob finds a file, and fails on the assertion otherwise |
| Quadtrees.MergeCommand | ichnaea/scripts/datamap.py:363-372 | the command is built exactly when the glob finds a file, and then parses back to its `-u` flag, output directory and globbed inputs |
| Quadtrees.MergeCommandRoundTrip | ichnaea/scripts/datamap.py:367-371 | the built command parses back to `-u` exactly when duplicates are removed, the output directory and the globbed input files |
| Quadtrees.ParseBuilt | ichnaea/scripts/datamap.py:367-371 | a merge command laid out as the script does parses back to its options |
| Quadtrees.ShardMergesKeepDuplicates | ichnaea/scripts/datamap.py:344-349 | intermediate shard merges are built without `-u` |
| Tiles.ParseLinesOk | ichnaea/scripts/datamap.py:655-661 | parsing succeeds exactly when every line is blank or has four fields |
| Tiles.EnumerateCommand | ichnaea/scripts/datamap.py:646-651 | the command is `enumerate -z <zoom> <shapes_dir>`, with the zoom printed as digits that read back as the zoom |
| Tiles.EnumerateTiles | ichnaea/scripts/datamap.py:644-661 | enumeration succeeds exactly when every output line is blank or has four fields, and then yields one tile per non-blank line, in order |
| Tiles.ParseLinesTiles | ichnaea/scripts/datamap.py:655-661 | a successful parse yields one tile per non-blank line, in order, with its fields in order |
| Tiles.ParseLinesMeaning | ichnaea/scripts/datamap.py:655-661 | both halves together: the iff for success, and one tile per non-blank line |
| Tiles.NonBlank | ichnaea/scripts/datamap.py:657-658 | the non-blank lines are lines of the input that have words |
| Tiles.NonBlankKeeps | ichnaea/scripts/datamap.py:657-658 | every line with words is kept as often as it occurs, every blank line is dropped, and the kept lines stay in their order |
| Tiles.EnumerateRoundTrip | ichnaea/scripts/datamap.py:644-661 | printing tiles one per line and enumerating the output gives the tiles back |
| Tiles.ParsePrinted | ichnaea/scripts/datamap.py:655-661 | parsing the lines of tiles printed one per line gives the tiles back |
| Tiles.CollectFolderParts | ichnaea/scripts/datamap.py:667-669 | the loop collects exactly the set of (zoom, x) pairs of the tiles |
| Tiles.MakeFolders | ichnaea/scripts/datamap.py:671-673 | one folder per collected pair, each created once, at `tiles_dir/zoom/x` |
| Tiles.CreateTileSubfolders | ichnaea/scripts/datamap.py:664-673 | the folders created are exactly the distinct (zoom, x) folders of the tiles, each once |
| Tiles.TileFoldersMade | ichnaea/scripts/datamap.py:664-673 | every tile's output folder is among those created |
| Tiles.TilePathSpelled | ichnaea/scripts/datamap.py:705 | the tile path is `tiles_dir/zoom/x/y` + suffix + `.png` |
| Tiles.TilePath | ichnaea/scripts/datamap.py:705 | the output path ends with `y<suffix>.png` and lies inside the tile's `zoom/x` folder |
| Tiles.TilePathObjectName | ichnaea/scripts/datamap.py:705 | the tile path is the tiles directory joined with `zoom/x/y<suffix>.png`, and the sync walk names it by that relative path |
| Cli.ExitEarly | ichnaea/scripts/datamap.py:965-997 | the validation step returns 0 or 1 |
| Cli.ExitEarlyTable | ichnaea/scripts/datamap.py:965-992 | validation returns 1 exactly for the rejected argument combinations, and 0 otherwise |
| Cli.EarlyExits | ichnaea/scripts/datamap.py:994-997 | a rejected run, or one asking for neither creation nor upload, ends with that exit code and generates nothing |
| Cli.OutputRequired | ichnaea/scripts/datamap.py:979-992 | create-only or upload-only without `--output` exits with 1 |
| Cli.TilesFolderRequired | ichnaea/scripts/datamap.py:968-978 | with `--output` but without `--create`, a missing tiles folder exits with 1 |
| Cli.BucketChoice | ichnaea/scripts/datamap.py:999-1004 | a truthy override wins; an unset or empty setting is kept as is; otherwise the name is the setting with its leading and trailing slashes stripped, so it neither starts nor ends with `/` |
| Cli.BucketName | ichnaea/scripts/datamap.py:999-1004 | a truthy override wins; an unset or empty setting is kept as is; otherwise the name is `Strip` of the setting by `/`, so it neither starts nor ends with `/` |
| Cli.GeneratesIff | ichnaea/scripts/datamap.py:999-1043 | generation runs exactly for an accepted run that creates or uploads, with a usable bucket when uploading; it works in `--output` when given and in a temporary directory otherwise |
| Cli.UploadNeedsBucket | ichnaea/scripts/datamap.py:1006-1017 | an upload with no usable bucket exits with 1 before generating |
| Cli.GenerationOutcome | ichnaea/scripts/datamap.py:1044-1077 | after generation the exit is 0 unless generation raised, which re-raises; the log names the task and the ending |
| Cli.ExitCodes | ichnaea/scripts/datamap.py:937-1077 | `main` exits only with 0 or 1, exits with 1 only before generating, and raises only what generation raised |
| Cli.Main | ichnaea/scripts/datamap.py:937-1077 | generation runs exactly for an accepted run that creates or uploads, with a usable bucket when uploading; exit 1 exactly for a rejected run or an unusable bucket; only 0 or 1 as codes; a raise exactly when generation raised |
| WifiCluster.RowDistanceIsMin | ichnaea/api/locate/wifi.py:40-41 | the distance from a network to a cluster is the least of its distances to the members |
| WifiCluster.ClusterDistanceIsMin | ichnaea/api/locate/wifi.py:40-41 | the cluster distance is attained by some pair and is at most every pairwise distance |
| WifiCluster.MergeAt | ichnaea/api/locate/wifi.py:57-58 | merging extends cluster i with cluster j and removes j, keeping the others in order |
| WifiCluster.MergeKeepsMembers | ichnaea/api/locate/wifi.py:57-58 | a merge keeps the multiset of members |
| WifiCluster.FirstCloseMeaning | ichnaea/api/locate/wifi.py:46-56 | the pair found is within the cluster distance; if none is found, every pair from the start point on is farther apart |
| WifiCluster.Step | ichnaea/api/locate/wifi.py:45-59 | one pass merges the first close pair, dropping one cluster, or changes nothing |
| WifiCluster.MergeFirstClose | ichnaea/api/locate/wifi.py:45-59 | the nested scan merges exactly when a close pair exists, and yields `Step` |
| WifiCluster.SingletonsPartition | ichnaea/api/locate/wifi.py:38 | the singletons hold each network exactly once |
| WifiCluster.ClusterKeepsMembers | ichnaea/api/locate/wifi.py:43-59 | the merge loop keeps the multiset of members |
| WifiCluster.PartitionMeaning | ichnaea/api/locate/wifi.py:38-59 | in a partition every network is in exactly one cluster, at most once |
| WifiCluster.ClusterSeparated | ichnaea/api/locate/wifi.py:43-59 | at the end no two distinct clusters are within the cluster distance |
| WifiCluster.ClusterShrinks | ichnaea/api/locate/wifi.py:43-59 | merging never adds clusters and leaves at least one when there were any |
| WifiCluster.SeparatedApart | ichnaea/api/locate/wifi.py:43-59 | separated clusters have every cross pair of networks farther apart than the cluster distance |
| WifiCluster.ClusterWifis | ichnaea/api/locate/wifi.py:34-61 | the clusters partition the networks, are pairwise apart, and are those of the first-pair merge order |
| WifiSearch.SignalOf | ichnaea/api/locate/wifi.py:76 | a missing or zero signal becomes -100; any other signal is kept |
| WifiSearch.SignalMapKeys | ichnaea/api/locate/wifi.py:74-76 | the signal map has a key exactly for each looked-up MAC |
| WifiSearch.SignalMapLast | ichnaea/api/locate/wifi.py:74-76 | a repeated MAC keeps its last lookup's signal |
| WifiSearch.FillSignals | ichnaea/api/locate/wifi.py:74-76 | the dictionary-filling loop builds the signal map |
| WifiSearch.ToNetworks | ichnaea/api/locate/wifi.py:78-80 | networks are built exactly when every stored network was looked up, and a KeyError is raised otherwise; each network carries its lookup's signal |
| WifiSearch.SortDesc | ichnaea/api/locate/wifi.py:83 | the sort is a permutation |
| WifiSearch.SortIsDescending | ichnaea/api/locate/wifi.py:83 | the sort orders by key, largest first |
| WifiSearch.SortIsStable | ichnaea/api/locate/wifi.py:83 | elements with equal keys keep their input order |
| WifiSearch.KeepLarge | ichnaea/api/locate/wifi.py:91 | the filter keeps exactly the clusters with at least the minimum size, each as often as it occurs, in their original order (a subsequence) |
| WifiSearch.GetClusters | ichnaea/api/locate/wifi.py:64-91 | the method returns the clusters of `ClustersOf` |
| WifiSearch.ClustersOfFails | ichnaea/api/locate/wifi.py:78-80 | `get_clusters` raises KeyError exactly when some stored network has no lookup |
| WifiSearch.ClustersOfKept | ichnaea/api/locate/wifi.py:64-91 | the networks are sorted by signal, descending and stable, and every returned cluster is a cluster of them with at least the minimum size |
| WifiSearch.PickBestIsFirstLargest | ichnaea/api/locate/wifi.py:94-113 | the best cluster is one of maximal size, and the earliest of that size |
| WifiSearch.PickBest | ichnaea/api/locate/wifi.py:110-113 | the best cluster is one of the clusters, and no cluster is larger |
| WifiSearch.SortHeadIsMax | ichnaea/api/locate/wifi.py:113 | the head of the sort has the largest key |
| WifiSearch.SortHeadIsFirst | ichnaea/api/locate/wifi.py:113 | the head of the sort is the earliest element with the largest key |
| WifiSearch.Sample | ichnaea/api/locate/wifi.py:132 | the sample is the first min(size, maximum) networks of the cluster |
| WifiSearch.Aggregate | ichnaea/api/locate/wifi.py:132-138 | the position is the average of the sample, with the accuracy capped at the maximum |
| WifiSearch.SearchWifi | ichnaea/api/locate/wifi.py:189-200 | the search returns the result of `Search` |
| WifiSearch.SearchEmpty | ichnaea/api/locate/wifi.py:191-196 | no lookups, or no surviving cluster, give the empty result |
| WifiSearch.BestAggregate | ichnaea/api/locate/wifi.py:196-198 | the chosen cluster is one of the kept clusters, and its aggregate accuracy is within the cap |
| WifiSearch.SearchPosition | ichnaea/api/locate/wifi.py:189-200 | a position is returned only for a query with lookups and a non-empty cluster list; it is the aggregate of the best cluster, with capped accuracy |

## Left out

- Subprocesses (`encode`, `merge`, `enumerate`, `render`, `pngquant`, and the `Popen` pipe in `generate_tile`) are not run. The model covers only the merge command list, the parsing of the enumerate output, and the tile output path. The enumerate output is an input string.
- The process pool and `apply_async` are not modelled. Jobs are a sequence of outcomes, awaited in list order.
- S3 and boto3 are not modelled: the client cache, `check_bucket`, `upload_status_file` and `send_file`.
  - The bucket listing is a sequence of pages.
  - A transfer is a function from job to a raised error or a list of response errors.
  - Whether the bucket is usable is a predicate `bucketWorks`.
- The database session, `decode_datamap_grid` and `random_points` are not modelled. Each exported page is a line count plus the grid of its last row.
- The timer and the 5-second progress cadence are not modelled. The progress trigger is a function from step to boolean, and elapsed seconds are not reported.
- File-system walking (`get_png_entries`) is not modelled. The local tiles are a sequence of (path, size, digest) in walk order. Directory creation is recorded as a list of folders; `os.makedirs` and the shutil calls are not modelled.
- `os.path.abspath` is not modelled: `Cli.AbsPath` joins the working directory and the argument without normalising.
- `glob` is not modelled. It becomes a prefix match over a directory listing given as input, in listing order.
- `generate()` is the `Generated` input to `main`: finished, interrupted, or raised with an error. argparse, raven and log formatting are left out.
- SyncRun.DeleteFiles: the error message prints the response errors comma-separated in brackets, not as Python's repr of the list of dictionaries.
- The order of `set` iteration in `create_tile_subfolders` is left open: `Tiles.MakeFolders` picks any remaining pair. Its contract holds for every order.
- `cluster_wifis` and `get_clusters` change Python lists in place (`pop`, `extend`, `sort`). The model computes new sequences instead: `WifiCluster.MergeAt`, and an insertion sort `WifiSearch.SortDesc`. Aliasing of the lists is not modelled.
- `distance` and `aggregate_position` are parameters. Positions and distances are `real`, not floating point, and the numpy circle array is not modelled.
- `ichnaea/api/locate/constants.py` is not part of this model. `MAX_WIFI_CLUSTER_METERS`, `MIN_WIFIS_IN_CLUSTER`, `MAX_WIFIS_IN_CLUSTER` and `WIFI_MAX_ACCURACY` are fields of a `Limits` parameter. `WIFI_MIN_ACCURACY` is only passed on to `aggregate_position` (wifi.py:136), so it reaches the model only inside the `average` parameter.
- `query_wifis` is database I/O. Its result is the `wifis` input of `WifiSearch.SearchWifi`, and the result type's other fields are not modelled.
- CsvExport.ExportToCsv: follows the code's cumulative rotation test (see Findings), not the per-file rule that the `file_limit` docstring (datamap.py:503) and the per-file `file_rows` counter suggest; the code uses that counter only to drop an empty last file (datamap.py:578).
- Text.Lines: cuts at every line-break character. Python's `splitlines` treats "\r\n" as one break, drops a final empty line and gives no lines for "". `enumerate_tiles` skips blank lines, so the tiles it parses are the same either way.
- JobWatch.WatchJobs: an exception raised by `on_success` itself, inside the `try` at datamap.py:280-283, is not modelled; callbacks are total functions of the state and the job's value.
- Cli.ExitEarly: states only the range of the code; the decision table itself is stated by `Cli.ExitEarlyTable`.

## Findings

| source | as written | input that shows it | evidently intended | confidence | as-written member | corrected member |
|---|---|---|---|---|---|---|
| ichnaea/scripts/datamap.py:564 | a new segment file is opened when the running total `result_rows` reaches `file_limit`, so once the limit is first crossed every later page opens a new file | limit 2 and four pages of one line give files of 2, 1 and 1 lines; pages of 2, 0 and 1 lines leave an empty middle file | rotate when the current file's `file_rows` reaches `file_limit`, so every file but the last holds at least the limit; the same four pages give two files of 2 lines | not executed | CsvExport.CumulativeRotationSplitsEarly | CsvExport.PerFileRotationFillsFiles |

`CsvExport.ExportToCsv` models the code as written. `CsvExport.Export` takes the rotation rule as a parameter: `Cumulative` is the code's rule and `PerFile` the corrected one. Both share the line-accounting and naming lemmas.
