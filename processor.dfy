/**
 * `GooglePhotosProcessor`: the per-file pipeline (sidecar extraction, upload
 * metadata, upload), batch processing with its statistics, and the top-level
 * run over a Takeout tree. Batches are processed sequentially, file by file,
 * in listing order.
 */
module Processor {
  import opened Wrappers
  import opened Discovery
  import opened Sidecar
  import opened Reconcile
  import opened Albums
  import opened Client

  /** The server's answers for one file: upload, asset fetch, album creation. */
  datatype ServerReplies = ServerReplies(upload: UploadReply, fetch: FetchReply, albumCreate: Option<string>)

  /** What a run reads from outside the program: sidecar contents and server answers. */
  datatype World = World(readSidecar: FilePath -> SidecarRead, server: FilePath -> ServerReplies)

  /** How `process_takeout` ends. */
  datatype RunOutcome = MissingTakeout | NoMediaFiles | BatchesRaised | Completed

  /**
   * The metadata `_process_single_file` uploads with `e`: None when the sidecar
   * cannot be used or yields an empty dictionary (`if not metadata`).
   */
  function UploadMetadataFor(world: World, e: MediaEntry): (r: Option<Metadata>)
    ensures r.Some? <==> LoadMetadata(world.readSidecar(e.sidecar)).Some? &&
                         LoadMetadata(world.readSidecar(e.sidecar)).value != EmptyMetadata
    ensures r.Some? ==> r.value == LoadMetadata(world.readSidecar(e.sidecar)).value
  {
    var read := world.readSidecar(e.sidecar);
    match LoadMetadata(read)
    case None => None
    case Some(m) =>
      if m == EmptyMetadata then None
      else PrepareLoaded(read); PrepareUploadMetadata(m)
  }

  /** The value `_process_single_file` returns for `e`. */
  function FileOutcome(dryRun: bool, pathHash: string -> int, world: World, e: MediaEntry): Option<UploadResult> {
    match UploadMetadataFor(world, e)
    case None => None
    case Some(m) =>
      var replies := world.server(e.file);
      UploadOutcome(dryRun, pathHash, e.file, m, replies.upload, replies.fetch)
  }

  /** `FileOutcome` and `AlbumRequest` in the order `_process_single_file` takes its steps. */
  lemma FileOutcomeSteps(dryRun: bool, pathHash: string -> int, world: World, e: MediaEntry)
    ensures var m := LoadMetadata(world.readSidecar(e.sidecar));
      var replies := world.server(e.file);
      if m.None? || m.value == EmptyMetadata then
        FileOutcome(dryRun, pathHash, world, e).None? && AlbumRequest(dryRun, world, e) == []
      else
        PrepareUploadMetadata(m.value) == Some(m.value) &&
        FileOutcome(dryRun, pathHash, world, e) == UploadOutcome(dryRun, pathHash, e.file, m.value, replies.upload, replies.fetch) &&
        AlbumRequest(dryRun, world, e) ==
          if AssignsAlbum(dryRun, replies.upload, e.album) then [(e.album.value, replies.albumCreate)] else []
  {
  }

  /** The album resolution processing `e` performs: none, or one for its title. */
  function AlbumRequest(dryRun: bool, world: World, e: MediaEntry): seq<(string, Option<string>)> {
    var replies := world.server(e.file);
    if UploadMetadataFor(world, e).Some? && AssignsAlbum(dryRun, replies.upload, e.album)
    then [(e.album.value, replies.albumCreate)]
    else []
  }

  /** `outcome` is `FileOutcome` under this configuration and world. */
  ghost predicate OutcomeIs(outcome: MediaEntry -> Option<UploadResult>, dryRun: bool, pathHash: string -> int, world: World) {
    forall e {:trigger FileOutcome(dryRun, pathHash, world, e)} :: outcome(e) == FileOutcome(dryRun, pathHash, world, e)
  }

  /** `request` is `AlbumRequest` under this configuration and world. */
  ghost predicate RequestIs(request: MediaEntry -> seq<(string, Option<string>)>, dryRun: bool, world: World) {
    forall e {:trigger AlbumRequest(dryRun, world, e)} :: request(e) == AlbumRequest(dryRun, world, e)
  }

  /** The paths added to `processed_files` while processing `media`. */
  function Succeeded(outcome: MediaEntry -> Option<UploadResult>, media: seq<MediaEntry>): set<string> {
    if media == [] then {}
    else
      var e := media[|media| - 1];
      Succeeded(outcome, media[..|media| - 1]) + if outcome(e).Some? then {PathText(e.file)} else {}
  }

  /** A path is recorded as processed exactly when one of its entries succeeded. */
  lemma {:induction false} SucceededIff(outcome: MediaEntry -> Option<UploadResult>, media: seq<MediaEntry>, p: string)
    ensures p in Succeeded(outcome, media) <==>
      exists k :: 0 <= k < |media| && outcome(media[k]).Some? && PathText(media[k].file) == p
  {
    if media != [] {
      var init := media[..|media| - 1];
      SucceededIff(outcome, init, p);
      if exists k :: 0 <= k < |init| && outcome(init[k]).Some? && PathText(init[k].file) == p {
        var k :| 0 <= k < |init| && outcome(init[k]).Some? && PathText(init[k].file) == p;
        assert media[k] == init[k];
      }
      if exists k :: 0 <= k < |media| && outcome(media[k]).Some? && PathText(media[k].file) == p {
        var k :| 0 <= k < |media| && outcome(media[k]).Some? && PathText(media[k].file) == p;
        if k < |init| {
          assert init[k] == media[k];
        }
      }
    }
  }

  /** The statistics counters a file's result moves. */
  datatype Counts = Counts(processed: nat, failed: nat, newUploads: nat, duplicates: nat,
                           metadataUpdates: nat, metadataAlreadyCorrect: nat)

  function CountsOf(stats: Stats): Counts
    reads stats
  {
    Counts(stats.processedFiles, stats.failedFiles, stats.newUploads, stats.duplicatesFound,
           stats.metadataUpdates, stats.metadataAlreadyCorrect)
  }

  /** The reconciliation counters `upload_asset` moves for a stored (not dry-run) asset. */
  function MetadataCount(c: Counts, dryRun: bool, r: Option<UploadResult>): Counts {
    if dryRun || r.None? then c
    else if r.value.metadataUpdated then c.(metadataUpdates := c.metadataUpdates + 1)
    else c.(metadataAlreadyCorrect := c.metadataAlreadyCorrect + 1)
  }

  /** The counters the batch loop moves for a file's result. */
  function ResultCount(c: Counts, r: Option<UploadResult>): Counts {
    match r
    case None => c.(failed := c.failed + 1)
    case Some(u) =>
      if u.isDuplicate then c.(processed := c.processed + 1, duplicates := c.duplicates + 1)
      else c.(processed := c.processed + 1, newUploads := c.newUploads + 1)
  }

  /** The counters after processing `media` from `c`. */
  function TallyFrom(c: Counts, dryRun: bool, outcome: MediaEntry -> Option<UploadResult>, media: seq<MediaEntry>): Counts {
    if media == [] then c
    else
      var r := outcome(media[|media| - 1]);
      ResultCount(MetadataCount(TallyFrom(c, dryRun, outcome, media[..|media| - 1]), dryRun, r), r)
  }

  /**
   * Every file is counted once, as processed or failed; every processed file once,
   * as new or duplicate; outside a dry run every processed file once more, as
   * updated or already correct.
   */
  lemma {:induction false} TallyTotals(c: Counts, dryRun: bool, outcome: MediaEntry -> Option<UploadResult>, media: seq<MediaEntry>)
    ensures var t := TallyFrom(c, dryRun, outcome, media);
      t.processed + t.failed == c.processed + c.failed + |media| &&
      t.newUploads + t.duplicates - (c.newUploads + c.duplicates) == t.processed - c.processed &&
      t.metadataUpdates + t.metadataAlreadyCorrect - (c.metadataUpdates + c.metadataAlreadyCorrect) ==
        (if dryRun then 0 else t.processed - c.processed)
  {
    if media != [] {
      TallyTotals(c, dryRun, outcome, media[..|media| - 1]);
    }
  }

  /** A dry run finds no duplicates and reconciles nothing: every processed file is a new upload. */
  lemma {:induction false} DryRunTally(c: Counts, outcome: MediaEntry -> Option<UploadResult>, pathHash: string -> int,
                                       world: World, media: seq<MediaEntry>)
    requires OutcomeIs(outcome, true, pathHash, world)
    ensures var t := TallyFrom(c, true, outcome, media);
      t.duplicates == c.duplicates && t.newUploads - c.newUploads == t.processed - c.processed &&
      t.metadataUpdates == c.metadataUpdates && t.metadataAlreadyCorrect == c.metadataAlreadyCorrect
  {
    if media != [] {
      DryRunTally(c, outcome, pathHash, world, media[..|media| - 1]);
      var e := media[|media| - 1];
      assert outcome(e) == FileOutcome(true, pathHash, world, e);
    }
  }

  /** The files `range(0, n, size)` hands out, batch by batch. */
  function Batches<T>(xs: seq<T>, size: nat): seq<seq<T>>
    requires size > 0
    decreases |xs|
  {
    if xs == [] then []
    else if |xs| <= size then [xs]
    else [xs[..size]] + Batches(xs[size..], size)
  }

  function Concat<T>(xss: seq<seq<T>>): seq<T> {
    if xss == [] then [] else xss[0] + Concat(xss[1..])
  }

  lemma MulStep(k: int, size: int)
    ensures (k + 1) * size == k * size + size
  {
  }

  lemma MulAtLeast(x: int, size: int)
    requires x >= 1 && size > 0
    ensures x * size >= size
  {
    var y := x - 1;
    assert x * size == y * size + size;
    assert y * size >= 0;
  }

  /** Floor division has one answer: `d * size + rem` with `0 <= rem < size` divides to `d`. */
  lemma DivUnique(a: int, size: int, d: int, rem: int)
    requires 0 <= rem < size && a == d * size + rem
    ensures a / size == d
  {
    var q, s := a / size, a % size;
    assert a == q * size + s && 0 <= s < size;
    if q < d {
      assert (d - q) * size == d * size - q * size;
      MulAtLeast(d - q, size);
    } else if q > d {
      assert (q - d) * size == q * size - d * size;
      MulAtLeast(q - d, size);
    }
  }

  /** The batches, joined in order, give back the list; each holds one to `size` files. */
  lemma {:induction false} BatchesPartition<T>(xs: seq<T>, size: nat)
    requires size > 0
    decreases |xs|
    ensures Concat(Batches(xs, size)) == xs
    ensures forall k :: 0 <= k < |Batches(xs, size)| ==> 0 < |Batches(xs, size)[k]| <= size
  {
    if xs != [] && |xs| <= size {
      assert [xs][1..] == [];
    } else if |xs| > size {
      var rest := xs[size..];
      BatchesPartition(rest, size);
      var b := Batches(xs, size);
      assert b == [xs[..size]] + Batches(rest, size);
      assert b[1..] == Batches(rest, size);
      assert xs[..size] + rest == xs;
      forall k | 0 < k < |b| ensures 0 < |b[k]| <= size {
        assert b[k] == Batches(rest, size)[k - 1];
      }
    }
  }

  /** There are `(n + size - 1) // size` batches: the `total_batches` the log reports. */
  lemma {:induction false} BatchesCount<T>(xs: seq<T>, size: nat)
    requires size > 0
    decreases |xs|
    ensures |Batches(xs, size)| == (|xs| + size - 1) / size
  {
    if xs == [] {
      DivUnique(size - 1, size, 0, size - 1);
    } else if |xs| <= size {
      DivUnique(|xs| + size - 1, size, 1, |xs| - 1);
    } else {
      var rest := xs[size..];
      BatchesCount(rest, size);
      var m := |rest| + size - 1;
      var t := m / size;
      assert m == t * size + m % size;
      MulStep(t, size);
      DivUnique(m + size, size, t + 1, m % size);
    }
  }

  /**
   * The batch starting at `i = k * size` is batch number `i // size + 1` of
   * `total_batches`, and it is `media_files[i:i + batch_size]`.
   */
  lemma BatchNumbering<T>(xs: seq<T>, size: nat, i: int, k: nat)
    requires size > 0 && i == k * size && i < |xs|
    ensures var end := if i + size <= |xs| then i + size else |xs|;
      var batchNum := i / size + 1;
      |Batches(xs, size)| == (|xs| + size - 1) / size &&
      1 <= batchNum <= |Batches(xs, size)| && xs[i..end] == Batches(xs, size)[batchNum - 1]
  {
    BatchAt(xs, size, k);
    DivUnique(i, size, k, 0);
    BatchesCount(xs, size);
  }

  /** Batch `k` is the slice starting at `k * size`, as `media_files[i:i + batch_size]`. */
  lemma {:induction false} BatchAt<T>(xs: seq<T>, size: nat, k: nat)
    requires size > 0 && k * size < |xs|
    decreases k
    ensures k < |Batches(xs, size)|
    ensures Batches(xs, size)[k] == xs[k * size .. if k * size + size <= |xs| then k * size + size else |xs|]
  {
    if k > 0 {
      assert k * size == (k - 1) * size + size;
      MulAtLeast(k, size);
      var rest := xs[size..];
      BatchAt(rest, size, k - 1);
      assert Batches(xs, size)[k] == Batches(rest, size)[k - 1];
    }
  }

  /** The counting the batch loop does for one file's result. */
  method CountResult(stats: Stats, result: Option<UploadResult>)
    modifies stats`processedFiles, stats`failedFiles, stats`newUploads, stats`duplicatesFound
    ensures CountsOf(stats) == ResultCount(old(CountsOf(stats)), result)
  {
    if result.Some? {
      stats.processedFiles := stats.processedFiles + 1;
      if result.value.isDuplicate {
        stats.duplicatesFound := stats.duplicatesFound + 1;
      } else {
        stats.newUploads := stats.newUploads + 1;
      }
    } else {
      stats.failedFiles := stats.failedFiles + 1;
    }
  }

  class GooglePhotosProcessor {
    const batchSize: int
    /** The Takeout files and the server this processor works against. */
    const world: World
    const stats: Stats
    const client: ImmichClient
    /** The result processing an entry yields (`FileOutcome`), and the album resolution it asks for. */
    ghost const outcome: MediaEntry -> Option<UploadResult>
    ghost const request: MediaEntry -> seq<(string, Option<string>)>
    var processedFiles: set<string>

    ghost predicate Valid()
      reads this, client, stats
    {
      client.stats == stats && client.Valid() &&
      OutcomeIs(outcome, client.dryRun, client.pathHash, world) &&
      RequestIs(request, client.dryRun, world)
    }

    constructor (dryRun: bool, pathHash: string -> int, batchSize: int, world: World)
      ensures Valid()
      ensures this.batchSize == batchSize && this.world == world
      ensures client.dryRun == dryRun && client.pathHash == pathHash
      ensures CountsOf(stats) == Counts(0, 0, 0, 0, 0, 0) && stats.totalFiles == 0
      ensures client.AlbumRegistry() == EmptyRegistry
      ensures processedFiles == {}
    {
      this.batchSize := batchSize;
      this.world := world;
      var s := new Stats();
      stats := s;
      client := new ImmichClient(dryRun, pathHash, s);
      outcome := e => FileOutcome(dryRun, pathHash, world, e);
      request := e => AlbumRequest(dryRun, world, e);
      processedFiles := {};
    }

    /** `_process_single_file`. */
    method ProcessSingleFile(e: MediaEntry) returns (result: Option<UploadResult>)
      requires Valid()
      modifies this`processedFiles, client`albumCache, client`albumStatsTracked
      modifies stats`albumsCreated, stats`albumsExisting, stats`createdAlbums, stats`existingAlbums
      modifies stats`metadataUpdates, stats`metadataAlreadyCorrect
      ensures Valid()
      ensures result == outcome(e)
      ensures stats.metadataUpdates ==
        old(stats.metadataUpdates) + if !client.dryRun && result.Some? && result.value.metadataUpdated then 1 else 0
      ensures stats.metadataAlreadyCorrect ==
        old(stats.metadataAlreadyCorrect) + if !client.dryRun && result.Some? && !result.value.metadataUpdated then 1 else 0
      ensures client.AlbumRegistry() == ResolveAll(old(client.AlbumRegistry()), request(e))
      ensures processedFiles == old(processedFiles) + if result.Some? then {PathText(e.file)} else {}
    {
      FileOutcomeSteps(client.dryRun, client.pathHash, world, e);
      var metadata := LoadMetadata(world.readSidecar(e.sidecar));
      if metadata.None? || metadata.value == EmptyMetadata {
        return None;
      }
      var uploadMetadata := PrepareUploadMetadata(metadata.value);
      if uploadMetadata.None? {
        return None;
      }
      var replies := world.server(e.file);
      ghost var before := client.AlbumRegistry();
      result := client.UploadAsset(e.file, uploadMetadata.value, e.album, replies.upload, replies.fetch, replies.albumCreate);
      if AssignsAlbum(client.dryRun, replies.upload, e.album) {
        var req := [(e.album.value, replies.albumCreate)];
        assert req[..0] == [];
        assert ResolveAll(before, req) == Resolve(before, e.album.value, replies.albumCreate).0;
      }
      if result.Some? {
        processedFiles := processedFiles + {PathText(e.file)};
      }
    }

    /** The state after processing `done`, starting from counters `c`, registry `r` and recorded `paths`. */
    ghost predicate Reached(done: seq<MediaEntry>, c: Counts, r: Registry, paths: set<string>)
      reads this, client, stats
    {
      Valid() &&
      CountsOf(stats) == TallyFrom(c, client.dryRun, outcome, done) &&
      client.AlbumRegistry() == ResolveAll(r, FlatMap(done, request)) &&
      processedFiles == paths + Succeeded(outcome, done)
    }

    /** One turn of the loop over a batch's results: process `e`, then count its result. */
    method ProcessAndCount(e: MediaEntry, ghost done: seq<MediaEntry>, ghost c0: Counts, ghost r0: Registry, ghost f0: set<string>)
      requires Reached(done, c0, r0, f0)
      modifies this`processedFiles, client`albumCache, client`albumStatsTracked
      modifies stats`albumsCreated, stats`albumsExisting, stats`createdAlbums, stats`existingAlbums
      modifies stats`metadataUpdates, stats`metadataAlreadyCorrect
      modifies stats`processedFiles, stats`failedFiles, stats`newUploads, stats`duplicatesFound
      ensures Reached(done + [e], c0, r0, f0)
    {
      ProcessStep(c0, client.dryRun, outcome, r0, request, done, e);
      ghost var counts := CountsOf(stats);
      var result := ProcessSingleFile(e);
      assert CountsOf(stats) == MetadataCount(counts, client.dryRun, result);
      CountResult(stats, result);
    }

    /** The loop over one batch's results, after the files `done`. */
    method ProcessBatch(batch: seq<MediaEntry>, ghost done: seq<MediaEntry>, ghost c0: Counts, ghost r0: Registry, ghost f0: set<string>)
      requires Reached(done, c0, r0, f0)
      modifies this`processedFiles, client`albumCache, client`albumStatsTracked
      modifies stats`albumsCreated, stats`albumsExisting, stats`createdAlbums, stats`existingAlbums
      modifies stats`metadataUpdates, stats`metadataAlreadyCorrect
      modifies stats`processedFiles, stats`failedFiles, stats`newUploads, stats`duplicatesFound
      ensures Reached(done + batch, c0, r0, f0)
    {
      assert done + batch[..0] == done;
      for j := 0 to |batch|
        invariant Reached(done + batch[..j], c0, r0, f0)
      {
        assert done + batch[..j + 1] == (done + batch[..j]) + [batch[j]];
        ProcessAndCount(batch[j], done + batch[..j], c0, r0, f0);
      }
      assert batch[..|batch|] == batch;
    }

    /**
     * `_process_files_in_batches`. A batch size of 0 raises ZeroDivisionError
     * before any file is touched; a negative one yields no batches.
     */
    method ProcessFilesInBatches(media: seq<MediaEntry>) returns (raised: bool)
      requires Valid()
      modifies this`processedFiles, client`albumCache, client`albumStatsTracked
      modifies stats`albumsCreated, stats`albumsExisting, stats`createdAlbums, stats`existingAlbums
      modifies stats`metadataUpdates, stats`metadataAlreadyCorrect
      modifies stats`processedFiles, stats`failedFiles, stats`newUploads, stats`duplicatesFound
      ensures Valid()
      ensures raised <==> batchSize == 0
      ensures batchSize > 0 ==> Reached(media, old(CountsOf(stats)), old(client.AlbumRegistry()), old(processedFiles))
      ensures batchSize <= 0 ==>
        CountsOf(stats) == old(CountsOf(stats)) && client.AlbumRegistry() == old(client.AlbumRegistry()) &&
        processedFiles == old(processedFiles)
    {
      if batchSize == 0 {
        return true;
      }
      if batchSize < 0 {
        return false;
      }
      var n := |media|;
      var totalBatches := (n + batchSize - 1) / batchSize;
      ghost var c0, r0, f0 := CountsOf(stats), client.AlbumRegistry(), processedFiles;
      assert media[..0] == [];
      var i := 0;
      ghost var k := 0;
      while i < n
        invariant 0 <= i <= n && 0 <= k
        invariant i < n ==> i == k * batchSize
        invariant Reached(media[..i], c0, r0, f0)
      {
        var end := if i + batchSize <= n then i + batchSize else n;
        var batch := media[i..end];
        var batchNum := i / batchSize + 1;
        BatchNumbering(media, batchSize, i, k);
        assert media[..end] == media[..i] + batch;
        ProcessBatch(batch, media[..i], c0, r0, f0);
        MulStep(k, batchSize);
        // the next start of `range(0, n, batch_size)`; past the last batch it leaves the loop either way
        i := end;
        k := k + 1;
      }
      assert media[..n] == media;
      return false;
    }

    /** `process_takeout` over a walk listing `dirs` of the Takeout directory. */
    method ProcessTakeout(takeoutExists: bool, dirs: seq<Directory>, albums: AlbumsReply) returns (run: RunOutcome)
      requires Valid()
      modifies this`processedFiles, client`albumCache, client`albumStatsTracked
      modifies stats`albumsCreated, stats`albumsExisting, stats`createdAlbums, stats`existingAlbums
      modifies stats`metadataUpdates, stats`metadataAlreadyCorrect
      modifies stats`processedFiles, stats`failedFiles, stats`newUploads, stats`duplicatesFound
      modifies stats`totalFiles
      ensures Valid()
      ensures run == MissingTakeout <==> !takeoutExists
      ensures run == NoMediaFiles <==> takeoutExists && Discover(dirs) == []
      ensures run == BatchesRaised <==> takeoutExists && Discover(dirs) != [] && batchSize == 0
      ensures takeoutExists ==> stats.totalFiles == |Discover(dirs)|
      ensures !takeoutExists ==> stats.totalFiles == old(stats.totalFiles)
      ensures run == Completed && batchSize > 0 ==>
        Reached(Discover(dirs), old(CountsOf(stats)), LoadedRegistry(old(client.AlbumRegistry()), albums), old(processedFiles))
      // every discovered file is counted once, as processed or failed; every processed one as new or duplicate
      ensures run == Completed && batchSize > 0 ==>
        stats.processedFiles + stats.failedFiles == old(stats.processedFiles + stats.failedFiles) + stats.totalFiles &&
        stats.newUploads + stats.duplicatesFound - old(stats.newUploads + stats.duplicatesFound) ==
          stats.processedFiles - old(stats.processedFiles)
      // a run that processes nothing leaves the counters and paths alone, and the registry as the album load left it
      ensures run != Completed || batchSize <= 0 ==>
        CountsOf(stats) == old(CountsOf(stats)) && processedFiles == old(processedFiles) &&
        client.AlbumRegistry() ==
          if takeoutExists then LoadedRegistry(old(client.AlbumRegistry()), albums) else old(client.AlbumRegistry())
    {
      if !takeoutExists {
        return MissingTakeout;
      }
      client.LoadExistingAlbums(albums);
      var mediaFiles := FindMediaFiles(dirs);
      stats.totalFiles := |mediaFiles|;
      if mediaFiles == [] {
        return NoMediaFiles;
      }
      ghost var c0 := CountsOf(stats);
      var raised := ProcessFilesInBatches(mediaFiles);
      if raised {
        return BatchesRaised;
      }
      TallyTotals(c0, client.dryRun, outcome, mediaFiles);
      return Completed;
    }
  }

  /** One file further: the state `Reached` describes after it. */
  lemma ProcessStep(c0: Counts, dryRun: bool, outcome: MediaEntry -> Option<UploadResult>, r0: Registry,
                    request: MediaEntry -> seq<(string, Option<string>)>, done: seq<MediaEntry>, e: MediaEntry)
    ensures var r := outcome(e);
      TallyFrom(c0, dryRun, outcome, done + [e]) == ResultCount(MetadataCount(TallyFrom(c0, dryRun, outcome, done), dryRun, r), r) &&
      ResolveAll(r0, FlatMap(done + [e], request)) == ResolveAll(ResolveAll(r0, FlatMap(done, request)), request(e)) &&
      Succeeded(outcome, done + [e]) == Succeeded(outcome, done) + if r.Some? then {PathText(e.file)} else {}
  {
    assert (done + [e])[..|done|] == done;
    ResolveAllAppend(r0, FlatMap(done, request), request(e));
  }

  lemma {:induction false} FlatMapAppend<A, B>(a: seq<A>, b: seq<A>, f: A -> seq<B>)
    decreases |b|
    ensures FlatMap(a + b, f) == FlatMap(a, f) + FlatMap(b, f)
  {
    if b != [] {
      var init := b[..|b| - 1];
      assert (a + b)[..|a + b| - 1] == a + init;
      assert (a + b)[|a + b| - 1] == b[|b| - 1];
      FlatMapAppend(a, init, f);
    } else {
      assert a + b == a;
    }
  }

  /** Processing `a` and then `b` is processing `a + b`: counters, albums and recorded paths. */
  lemma {:induction false} RunAppend(c0: Counts, dryRun: bool, outcome: MediaEntry -> Option<UploadResult>, r0: Registry,
                                     request: MediaEntry -> seq<(string, Option<string>)>, a: seq<MediaEntry>, b: seq<MediaEntry>)
    decreases |b|
    ensures TallyFrom(c0, dryRun, outcome, a + b) == TallyFrom(TallyFrom(c0, dryRun, outcome, a), dryRun, outcome, b)
    ensures ResolveAll(r0, FlatMap(a + b, request)) == ResolveAll(ResolveAll(r0, FlatMap(a, request)), FlatMap(b, request))
    ensures Succeeded(outcome, a + b) == Succeeded(outcome, a) + Succeeded(outcome, b)
  {
    FlatMapAppend(a, b, request);
    ResolveAllAppend(r0, FlatMap(a, request), FlatMap(b, request));
    if b == [] {
      assert a + b == a;
    } else {
      var init := b[..|b| - 1];
      assert (a + b)[..|a + b| - 1] == a + init;
      assert (a + b)[|a + b| - 1] == b[|b| - 1];
      RunAppend(c0, dryRun, outcome, r0, request, a, init);
    }
  }
}
