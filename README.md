# gphoto-to-immich: a Dafny model of the migration engine

`gphoto_to_immich.py` migrates a Google Photos Takeout export into an Immich
server. For every media file in the Takeout tree, the migration engine:

- finds the JSON sidecar that Takeout writes next to it;
- extracts the capture time and location from that sidecar;
- uploads the file;
- reconciles the server's metadata with the sidecar;
- files the asset into the album named by its directory's `Metadaten.json`.

Along the way it keeps running statistics: files processed and failed, new
uploads and duplicates, albums created and reused, and metadata corrected or
already correct.

This project models that engine. The HTTP calls, the filesystem and the JSON
decoder become inputs:

- a directory listing;
- decoded sidecars;
- the server's answers for each file, given as a `World`.

What the engine decides from those inputs, and the state it keeps, are stated
and proved in Dafny.

The model is split into modules:

- **Discovery** (`discovery.dfy`): `_is_media_file`, `_find_metadata_file` and
  `_find_media_files` over an `os.walk` listing. The two scans are methods with
  loops, proved against the specification function `Discover`.
- **Calendar** (`calendar.dfy`): `time.gmtime` and the `strftime` rendering
  `YYYY-MM-DDTHH:MM:SS.000Z`. This is a proleptic Gregorian calendar from
  epoch seconds to a civil date, with a parser for the rendered string and a
  round-trip proof.
- **Sidecar** (`sidecar.dfy`): the extraction part of `_load_metadata` and
  `_prepare_upload_metadata`.
- **Reconcile** (`reconcile.dfy`): the decision in
  `_check_and_update_metadata`. From the expected metadata and the fetched
  asset record, it yields the update request and the boolean returned.
- **Albums** (`albums.dfy`): the album registry as a value. This covers the
  name→id cache, the titles already counted, the created and existing album
  lists and their counters, and one `_get_or_create_album` step as a function
  of it. It also covers the cache seeding done by `load_existing_albums`.
- **Client** (`client.dfy`): the `ImmichClient` class.
  - The upload classification and dry run of `upload_asset`.
  - The album methods, which update the cache fields and the shared
    statistics in place.
- **Processor** (`processor.dfy`): the `GooglePhotosProcessor` class.
  - `_process_single_file`.
  - `_process_files_in_batches`: batch slicing and the tally into the stats
    counters.
  - `process_takeout`.
- **Text**, **Wrappers**: digits, decimal rendering and parsing, `str.lower`,
  `str.rfind` and `Option`.

The processor runs sequentially: batch by batch, each file in listing order.
State that the source keeps as dictionaries and lists is modelled as follows:

- The `stats` dictionary and the album lists are the fields of `Client.Stats`.
  The client and the processor share one instance, just as the source's client
  writes into `self._processor.stats`.
- `_album_cache` and `_album_stats_tracked` are fields of
  `Client.ImmichClient`.
- `processed_files` is a field of `Processor.GooglePhotosProcessor`.

## Model

| member | source | states |
|---|---|---|
| Discovery.IsMediaFileIff | gphoto_to_immich.py:493-499 | a name is a media file iff it has a dot after its first character, with no later dot and not at the end, and the text from that dot, lower-cased, is one of the fourteen extensions |
| Discovery.ExtensionCaseInsensitive | gphoto_to_immich.py:499 | a name and its lower-cased form are both media files or both not |
| Discovery.FirstExisting | gphoto_to_immich.py:508-513 | None iff no candidate exists; otherwise the result is a candidate that exists, and no earlier candidate exists |
| Discovery.SidecarChoice | gphoto_to_immich.py:503-513 | the sidecar is `<name>.supplemental-metadata.json` if it exists, else `<name>.supplemental-metadata copy.json` if that exists, else none |
| Discovery.FindMetadataFile | gphoto_to_immich.py:501-513 | the loop with early return yields the first existing candidate, in the file's own directory, and None iff there is none |
| Discovery.ScanDirectory | gphoto_to_immich.py:481-489 | the inner loop appends exactly the entries of the directory's media files that have a sidecar, in listing order, each with the directory's own title |
| Discovery.FindMediaFiles | gphoto_to_immich.py:461-491 | the walk loop resets the title for every directory and returns exactly `Discover(dirs)` |
| Discovery.DiscoverMembership | gphoto_to_immich.py:465-491 | an entry is emitted iff it is the entry of some file of some walked directory |
| Discovery.EntryForIff | gphoto_to_immich.py:469-489 | a file yields an entry iff it is media and has a sidecar; the entry pairs the file with that sidecar and with the title read from its own directory's descriptor (`''` for a descriptor without `title`, none when the descriptor is missing or unreadable) |
| Discovery.DiscoverNoDuplicates | gphoto_to_immich.py:465-491 | over a walk with distinct directories and distinct file names, no media file is emitted twice |
| Text.ToLowerIdempotent | gphoto_to_immich.py:499 | `lower()` leaves no ASCII capital behind, so lower-casing twice is lower-casing once |
| Text.LastIndexOf | gphoto_to_immich.py:499 | the result is -1 or an index holding the character, with no later occurrence |
| Text.IntToDecimalRoundTrip | gphoto_to_immich.py:110 | parsing the decimal rendering of any integer gives it back |
| Text.IntToDecimalInjective | gphoto_to_immich.py:110 | distinct integers get distinct decimal renderings |
| Calendar.CivilFromDays | gphoto_to_immich.py:588 | the date of day `z` since 1970-01-01 is a valid date that counts back to `z` |
| Calendar.CivilFromDaysOfDate | gphoto_to_immich.py:588 | converting any valid date to a day number and back gives the date |
| Calendar.DaysFromCivilInjective | gphoto_to_immich.py:588 | distinct valid dates fall on distinct days |
| Calendar.Gmtime | gphoto_to_immich.py:588 | `gmtime(t)` is a valid date and time whose epoch seconds are `t`, including negative `t` |
| Calendar.GmtimeOfEpochSeconds | gphoto_to_immich.py:588 | `gmtime` inverts the epoch-seconds count on every valid date and time |
| Calendar.YearStep | gphoto_to_immich.py:588 | the closed-form day count before a year grows by that year's length, 366 exactly in leap years |
| Calendar.EraShift | gphoto_to_immich.py:588 | every 400-year era has 146097 days and the same leap years |
| Calendar.YearRange | gphoto_to_immich.py:588 | the UTC year has four digits exactly for timestamps in [MinFormattable, MaxFormattable] |
| Calendar.FormatParse | gphoto_to_immich.py:588 | the rendering of a valid date and time has the shape `DDDD-DD-DDTDD:DD:DD.000Z` and parses back to the same epoch second |
| Calendar.FormatUtc | gphoto_to_immich.py:588 | a string is produced iff the timestamp has a four-digit UTC year; it has the fixed shape and parses back to the same second |
| Sidecar.LoadMetadata | gphoto_to_immich.py:576-606 | an unreadable sidecar fails; the created and modified times are equal; a creation time comes only from a present, truthy, integer timestamp and parses back to it; `geoData` is present iff `geoDataExif` is present and neither coordinate equals 0, and then it carries the coordinates and the altitude (default 0) |
| Sidecar.LoadMetadataFails | gphoto_to_immich.py:584-606 | extraction fails iff the sidecar is unreadable, or its timestamp is truthy but not an integer or outside the formattable range |
| Sidecar.LoadMetadataTimestamp | gphoto_to_immich.py:584-590 | a successful extraction has a creation time iff `photoTakenTime.timestamp` is present and truthy |
| Sidecar.PrepareUploadMetadata | gphoto_to_immich.py:608-621 | fails (KeyError) iff a creation time comes without a modification time; otherwise copies exactly `fileCreatedAt`, `fileModifiedAt` (only alongside a creation time) and `geoData` |
| Sidecar.PrepareLoaded | gphoto_to_immich.py:608-621 | on anything the extraction produces, preparing the upload metadata returns it unchanged |
| Reconcile.CheckMetadata | gphoto_to_immich.py:209-281 | an update always names exactly `[asset_id]` and sets at least one field; a raised or non-200 fetch never updates; no location update carries a zero coordinate |
| Reconcile.CheckMetadataFields | gphoto_to_immich.py:221-277 | on a fetched record, for an expected location with both coordinates present (or none expected): `dateTimeOriginal` is set, to the expected value, iff a non-empty expected creation time differs from the EXIF date or from `fileCreatedAt`; the location is set, to the expected pair, iff both expected coordinates are non-zero and the current one is missing or off by more than 0.0001; the method returns true iff one of them is set, whatever the PUT answers |
| Reconcile.CheckMetadataMissingCoordinate | gphoto_to_immich.py:250-281 | for an expected location missing a coordinate, the method raises and returns false, with no request even for a due date, iff neither coordinate is zero, the current location is present and the `abs(...)` comparison reaches the missing value |
| Reconcile.MatchingRecordNeedsNoUpdate | gphoto_to_immich.py:236-277 | a record whose dates match exactly and whose location is within tolerance needs no update |
| Albums.ResolveValid | gphoto_to_immich.py:325-385 | a `_get_or_create_album` step keeps the registry invariant: each counter equals its list's length, no name is listed twice, created names are cached, existing names are exactly the tracked ones |
| Albums.ResolveEffect | gphoto_to_immich.py:325-385 | a cached title returns its cached id and creates nothing, counting itself as existing only the first time; an uncached title is created, cached, listed and counted iff the creation answer carries an id; otherwise `""` and no change |
| Albums.ResolveAllCreatesOnce | gphoto_to_immich.py:347-378 | over any run of resolutions the invariant holds, so no title is created twice and `albums_created == len(created_albums)`; the cache only grows; every created album was requested and uncached at the start |
| Albums.ResolveAllAppend | gphoto_to_immich.py:325-385 | resolving one run of titles and then another equals resolving them joined |
| Albums.NewAlbumCountedAsExistingOnce | gphoto_to_immich.py:328-378 | three files of one new album, resolved one after another: the album is created once and, on the next cache hit, also counted once as existing |
| Albums.LoadablePrefix | gphoto_to_immich.py:396-398 | the albums stored are the leading entries that have both keys, and the first entry after them lacks one (its KeyError ends the loop) |
| Albums.SeedCacheLastWins | gphoto_to_immich.py:397-398 | seeding adds exactly the listed names, keeps the other entries, and for a name listed more than once the last id wins |
| Albums.SeedCacheValid | gphoto_to_immich.py:387-404 | seeding the cache keeps the registry invariant |
| Client.AcceptedAsset | gphoto_to_immich.py:150-158 | an upload is accepted iff the status is 200 or 201 and the body has an id; it is a duplicate iff the status is 200 and the body status is `"duplicate"` |
| Client.DryRunAssetIdIdentifiesHash | gphoto_to_immich.py:110 | two dry-run ids agree iff the two path texts hash alike |
| Client.UploadOutcome | gphoto_to_immich.py:105-193 | a dry run reports the `dry_run_` id, not a duplicate, not updated; otherwise a result exists iff the asset was accepted, and it carries the body's id, the duplicate flag, and `metadata_updated` iff the reconciliation sent an update, which needs a 200 fetch |
| Client.Stats.constructor | gphoto_to_immich.py:416-430 | all counters start at 0 and both album lists empty |
| Client.ImmichClient.constructor | gphoto_to_immich.py:76-79 | the cache starts empty and the registry invariant holds |
| Client.ImmichClient.GetOrCreateAlbum | gphoto_to_immich.py:325-385 | the cache, tracked set, album lists and counters change exactly as one `Resolve` step, and the invariant is kept |
| Client.ImmichClient.LoadExistingAlbums | gphoto_to_immich.py:387-404 | the registry becomes `LoadedRegistry`: on a 200 answer the loop stores the loadable prefix in order into the cache; on any other answer or an exception nothing changes; tracked names, album lists and counters never change; the invariant is kept |
| Client.ImmichClient.AddToAlbum | gphoto_to_immich.py:300-323 | the album is resolved once, and an assignment is made exactly when the resolved id is non-empty |
| Client.ImmichClient.UploadAsset | gphoto_to_immich.py:105-193 | the result is `UploadOutcome`; every accepted non-dry upload increments exactly one of `metadata_updates` and `metadata_already_correct`; the album is resolved iff the asset was accepted outside a dry run and the title is non-empty |
| Processor.UploadMetadataFor | gphoto_to_immich.py:552-559 | a file has upload metadata iff its sidecar extracts to a non-empty dictionary, and that metadata is uploaded unchanged |
| Processor.FileOutcomeSteps | gphoto_to_immich.py:550-572 | the file's result and album request, step by step: no metadata means failure with no album step; otherwise the upload outcome, with an album request iff the upload assigns one |
| Processor.SucceededIff | gphoto_to_immich.py:564-566 | a path is recorded as processed iff one of its entries yielded a result |
| Processor.TallyTotals | gphoto_to_immich.py:533-548 | every file is counted once, as processed or failed; every processed file once, as new or duplicate; outside a dry run every processed file once more, as updated or already correct |
| Processor.DryRunTally | gphoto_to_immich.py:107-113 | a dry run finds no duplicates and reconciles nothing: every processed file is a new upload |
| Processor.BatchesPartition | gphoto_to_immich.py:520-521 | the batches joined in order give back the file list, and each holds between one and `batch_size` files |
| Processor.BatchesCount | gphoto_to_immich.py:517 | there are `(n + batch_size - 1) // batch_size` batches |
| Processor.BatchAt | gphoto_to_immich.py:520-521 | batch `k` is the slice `media_files[k * batch_size : k * batch_size + batch_size]` |
| Processor.BatchNumbering | gphoto_to_immich.py:517-524 | the batch starting at `i` is number `i // batch_size + 1`, between 1 and `total_batches`, and is the slice the loop takes |
| Processor.CountResult | gphoto_to_immich.py:536-545 | a result counts as processed and as duplicate or new; no result counts as failed |
| Processor.RunAppend | gphoto_to_immich.py:520-548 | processing one list and then another equals processing them joined, for the counters, the album registry and the recorded paths |
| Processor.GooglePhotosProcessor.constructor | gphoto_to_immich.py:410-430 | counters at 0, empty registry, no processed files, client and processor sharing one statistics record |
| Processor.GooglePhotosProcessor.ProcessSingleFile | gphoto_to_immich.py:550-572 | the result is the file's `FileOutcome`; the reconciliation counters, the album registry and `processed_files` move exactly as that outcome says |
| Processor.GooglePhotosProcessor.ProcessAndCount | gphoto_to_immich.py:533-548 | processing and counting one file extends the reached state by that file |
| Processor.GooglePhotosProcessor.ProcessBatch | gphoto_to_immich.py:527-548 | after a batch the counters, registry and processed paths are those of the files so far followed by the batch |
| Processor.GooglePhotosProcessor.ProcessFilesInBatches | gphoto_to_immich.py:515-548 | for `batch_size > 0` the state is that of processing every file once, in order; `batch_size == 0` raises ZeroDivisionError with nothing processed; a negative size processes nothing |
| Processor.GooglePhotosProcessor.ProcessTakeout | gphoto_to_immich.py:432-459 | a missing directory stops at once with `total_files`, counters, registry and processed paths unchanged; otherwise the albums are loaded into the cache, `total_files` is the number discovered, an empty discovery stops, and a completed run has processed every discovered file with `processed_files + failed_files` grown by `total_files` and new plus duplicates equal to the processed count; a run that stops early (no media files, batch size 0) or processes nothing leaves counters and paths unchanged and the registry exactly as the album load left it |

## Left out

- HTTP: the session, the retry adapter, timeouts and every request (gphoto_to_immich.py:82-103, 139-147, 211-214, 286-298, 307-321, 356-360, 390-393). The status codes and body fields of the answers are inputs (`UploadReply`, `FetchReply`, `AlbumsReply`, the `Option<string>` of an album creation). The answer to the album assignment PUT and the metadata update PUT is only logged by the source, so it is not modelled.
- The SHA-1 checksum header (gphoto_to_immich.py:195-201) and the form fields sent with an upload (`deviceAssetId`, `deviceId`, the `metadata` list). The server's answer is an input, so they decide nothing in the model.
- File reading and JSON decoding of sidecars and `Metadaten.json`, `os.walk` and `Path.exists`. The decoded sidecar (`SidecarRead`), the album descriptor (`Descriptor`) and the listing (`Directory`, with its set of existing names) are inputs. Sidecar JSON that is not an object, or `photoTakenTime`/`geoDataExif` values that are not objects, are not modelled.
- `exifInfo: null` in a fetched asset record, which raises inside the caught `try`, is not modelled. A missing `exifInfo` reads as the empty record.
- Discovery.PathText: joins with `dir + "/" + name`. This is `str(Path(dir) / name)` only when the Takeout path is neither `.` nor ends in `/`. Otherwise `Path` drops the `./` or the doubled slash and the model keeps it, which changes the `processed_files` strings and the text hashed for a dry-run id.
- Sidecar.TimestampValue: a timestamp is an integer or a string. A float timestamp, which `int()` truncates, and a boolean one are not representable.
- Discovery.Descriptor: an album title is a string or absent. `"title": null`, which Python carries on as the title `None`, is not representable.
- Threads and `_album_creation_lock`: files are processed sequentially and in listing order. The locked re-check of the cache (gphoto_to_immich.py:349-352) cannot fire without concurrency. `max_workers` is not modelled.
- Floating point: coordinates are Dafny `real`. The 0.0 comparisons and the 0.0001 tolerance are exact, with no IEEE rounding.
- Calendar.FormatUtc: timestamps whose UTC year falls outside 1000–9999 are treated as a failed extraction. Python would instead render them with an unpadded or signed year, or raise for out-of-range values.
- Text.ParseInt: `int()` is modelled for an optional sign followed by ASCII digits. Surrounding whitespace, underscores and non-ASCII digits are not accepted.
- Text.ToLower: lower-casing is modelled only as far as it can decide membership in the ASCII extension set. That means ASCII capitals and KELVIN SIGN; every other character is kept.
- Client.DryRunAssetId: Python's per-process salted string `hash` is the parameter `pathHash`. Only "same path, same id within a run" is stated.
- Logging, the audit loggers, `_print_statistics`, `_print_album_details` and `start_time`: output only.
- `Config`, `main` and argument parsing, `test_migration.py` and `setup.py`: command-line and installation plumbing.
- Processor.GooglePhotosProcessor.ProcessFilesInBatches: the "Unexpected error" branch (gphoto_to_immich.py:546-548) is not modelled. `_process_single_file` catches every exception itself, so a future never raises in the sequential model.
- Albums.NewAlbumCountedAsExistingOnce: holds when the three files are resolved one after another, as in the model. After `_get_or_create_album` creates an album, the next call for the same title takes the cache path and counts it once under `albums_existing` (gphoto_to_immich.py:328-345), so the run ends with `albums_created == 1` and `albums_existing == 1`. Under the thread pool, a call that misses the cache while the creation is in progress waits on the lock. It then returns through the locked re-check (gphoto_to_immich.py:349-352) without counting, so `albums_existing` can end at 0 or 1.
